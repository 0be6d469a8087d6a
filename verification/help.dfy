/** The pure parts of the `help` command: the usage string of a command, the
    grouping of the visible commands by category, and the per-command help
    with its argument lines. Check results and owner membership are given
    as booleans. */
module Help {
  import opened Common
  import opened Text

  /** A command parameter as the help reads it. */
  datatype Parameter = Parameter(name: string, required: bool, description: Option<string>)

  /** A registered command: only the fields the help reads. `checks` holds the
      outcome of each of the command's checks for the asking user. */
  datatype Command = Command(
    name: string,
    description: Option<string>,
    category: Option<string>,
    parameters: seq<Parameter>,
    subcommands: seq<Command>,
    checks: seq<bool>,
    ownersOnly: bool)

  // ---------------------------------------------------------------------------
  // Usage

  /** `<name>` for a required parameter, `[name]` for an optional one. */
  function ParameterToken(p: Parameter): (t: string)
    ensures |t| == |p.name| + 2
    ensures t[0] == (if p.required then '<' else '[')
    ensures t[|t| - 1] == (if p.required then '>' else ']')
    ensures t[1..|t| - 1] == p.name
  {
    if p.required then "<" + p.name + ">" else "[" + p.name + "]"
  }

  function ParameterTokens(ps: seq<Parameter>): (ts: seq<string>)
    ensures |ts| == |ps|
    ensures forall i :: 0 <= i < |ps| ==> ts[i] == ParameterToken(ps[i])
  {
    seq(|ps|, i requires 0 <= i < |ps| => ParameterToken(ps[i]))
  }

  /** `command_usage`: the parameter tokens joined by spaces, or `...` when
      the command is listed as a supercommand and has subcommands. */
  function CommandUsage(cmd: Command, asSupercommand: bool): (u: string)
    ensures u == "..." <==> asSupercommand && |cmd.subcommands| > 0
    ensures |cmd.parameters| == 0 && !(asSupercommand && |cmd.subcommands| > 0) ==> u == ""
  {
    if |cmd.subcommands| == 0 || !asSupercommand then
      var u := Join(ParameterTokens(cmd.parameters), ' ');
      JoinStartsWithFirst(ParameterTokens(cmd.parameters), ' ');
      u
    else "..."
  }

  /** A join of nonempty parts starts with the first part's first character,
      and a join of no parts is empty. */
  lemma {:induction false} JoinStartsWithFirst(parts: seq<string>, sep: char)
    requires forall i :: 0 <= i < |parts| ==> |parts[i]| > 0
    ensures |parts| == 0 ==> Join(parts, sep) == ""
    ensures |parts| > 0 ==> |Join(parts, sep)| > 0 && Join(parts, sep)[0] == parts[0][0]
  {
  }

  /** Splitting the usage on spaces gives back one token per parameter, in
      parameter order, when no parameter name contains a space. */
  lemma UsageTokens(cmd: Command, asSupercommand: bool)
    requires !(asSupercommand && |cmd.subcommands| > 0)
    requires |cmd.parameters| > 0
    requires forall i :: 0 <= i < |cmd.parameters| ==> Lacks(cmd.parameters[i].name, ' ')
    ensures Split(CommandUsage(cmd, asSupercommand), ' ') == ParameterTokens(cmd.parameters)
  {
    var ts := ParameterTokens(cmd.parameters);
    forall i | 0 <= i < |ts|
      ensures Lacks(ts[i], ' ')
    {
      var t := ts[i];
      assert t[1..|t| - 1] == cmd.parameters[i].name;
      forall j | 0 <= j < |t|
        ensures t[j] != ' '
      {
        if 0 < j < |t| - 1 {
          assert t[j] == t[1..|t| - 1][j - 1];
        }
      }
    }
    SplitJoin(ts, ' ');
  }

  // ---------------------------------------------------------------------------
  // Visibility and categories

  /** A command is listed when every check passes and it is not reserved to
      owners, unless the user is one. */
  predicate Visible(cmd: Command, isOwner: bool) {
    (forall i :: 0 <= i < |cmd.checks| ==> cmd.checks[i]) && !(cmd.ownersOnly && !isOwner)
  }

  type Category = (Option<string>, seq<Command>)

  /** Files one visible command: into its category if that is listed, else
      into a new category appended at the end. */
  function FileCommand(cats: seq<Category>, cmd: Command): (r: seq<Category>)
    ensures var k := FindKey(cats, cmd.category);
            && (k < |cats| ==> |r| == |cats| && r == cats[k := (cmd.category, cats[k].1 + [cmd])])
            && (k == |cats| ==> r == cats + [(cmd.category, [cmd])])
  {
    var k := FindKey(cats, cmd.category);
    if k < |cats| then cats[k := (cats[k].0, cats[k].1 + [cmd])] else cats + [(cmd.category, [cmd])]
  }

  /** The category list `display_commands` builds: the uncategorised group
      first, then each category in order of its first visible command. */
  function Categorize(cmds: seq<Command>, isOwner: bool): (cats: seq<Category>)
    ensures |cats| >= 1 && cats[0].0 == None
    decreases |cmds|
  {
    if |cmds| == 0 then [(None, [])]
    else
      var before := Categorize(cmds[..|cmds| - 1], isOwner);
      var cmd := cmds[|cmds| - 1];
      if Visible(cmd, isOwner) then FileCommand(before, cmd) else before
  }

  /** The visible commands of a category, in registration order: the
      reference the grouping is measured against. */
  function InCategory(cmds: seq<Command>, isOwner: bool, key: Option<string>): (r: seq<Command>)
    ensures forall c :: c in r ==> c in cmds && Visible(c, isOwner) && c.category == key
    decreases |cmds|
  {
    if |cmds| == 0 then []
    else
      var before := InCategory(cmds[..|cmds| - 1], isOwner, key);
      var cmd := cmds[|cmds| - 1];
      if Visible(cmd, isOwner) && cmd.category == key then before + [cmd] else before
  }

  /** Whether some visible command has category `key`. */
  predicate HasVisible(cmds: seq<Command>, isOwner: bool, key: Option<string>) {
    exists i :: 0 <= i < |cmds| && Visible(cmds[i], isOwner) && cmds[i].category == key
  }

  predicate DistinctKeys(cats: seq<Category>) {
    forall i, j :: 0 <= i < j < |cats| ==> cats[i].0 != cats[j].0
  }

  /** The keys of the category list, in order. */
  function Keys(cats: seq<Category>): (ks: seq<Option<string>>)
    ensures |ks| == |cats|
    ensures forall i :: 0 <= i < |cats| ==> ks[i] == cats[i].0
  {
    seq(|cats|, i requires 0 <= i < |cats| => cats[i].0)
  }

  /** A visible command of a prefix is a visible command of the whole list. */
  lemma HasVisiblePrefix(cmds: seq<Command>, n: nat, isOwner: bool, key: Option<string>)
    requires n <= |cmds|
    requires HasVisible(cmds[..n], isOwner, key)
    ensures HasVisible(cmds, isOwner, key)
  {
    var i :| 0 <= i < n && Visible(cmds[..n][i], isOwner) && cmds[..n][i].category == key;
    assert cmds[i] == cmds[..n][i];
  }

  /** A visible command is in the prefix before the last command, or is that
      last command. */
  lemma HasVisibleLast(cmds: seq<Command>, isOwner: bool, key: Option<string>)
    requires |cmds| > 0
    requires HasVisible(cmds, isOwner, key)
    ensures var n := |cmds| - 1;
            HasVisible(cmds[..n], isOwner, key) || (Visible(cmds[n], isOwner) && cmds[n].category == key)
  {
    var n := |cmds| - 1;
    var i :| 0 <= i < |cmds| && Visible(cmds[i], isOwner) && cmds[i].category == key;
    if i < n {
      assert cmds[..n][i] == cmds[i];
    }
  }

  /** Position of the first visible command with category `key`, or the
      length of the list when there is none: the reference the order of the
      categories is measured against. */
  function FirstVisible(cmds: seq<Command>, isOwner: bool, key: Option<string>): (k: nat)
    ensures k <= |cmds|
    ensures k < |cmds| ==> Visible(cmds[k], isOwner) && cmds[k].category == key
    ensures forall j :: 0 <= j < k ==> !(Visible(cmds[j], isOwner) && cmds[j].category == key)
    ensures k < |cmds| <==> HasVisible(cmds, isOwner, key)
    decreases |cmds|
  {
    if |cmds| == 0 then 0
    else
      var n := |cmds| - 1;
      var f := FirstVisible(cmds[..n], isOwner, key);
      assert forall j :: 0 <= j < n ==> cmds[..n][j] == cmds[j];
      if f < n then f
      else if Visible(cmds[n], isOwner) && cmds[n].category == key then n
      else |cmds|
  }

  /** The categories after the first are in the order of their first visible
      commands. */
  predicate OrderedByFirst(cmds: seq<Command>, isOwner: bool, cats: seq<Category>) {
    forall i, j :: 1 <= i < j < |cats| ==>
      FirstVisible(cmds, isOwner, cats[i].0) < FirstVisible(cmds, isOwner, cats[j].0)
  }

  /** Filing a command keeps the keys, or appends the command's category
      when it was not yet listed. */
  lemma FileCommandKeys(cats: seq<Category>, cmd: Command)
    ensures var k := FindKey(cats, cmd.category);
            && (k < |cats| ==> Keys(FileCommand(cats, cmd)) == Keys(cats))
            && (k == |cats| ==> Keys(FileCommand(cats, cmd)) == Keys(cats) + [cmd.category])
  {
  }

  /** What the category keys satisfy for a command list: distinct, each
      (after the first) the category of a visible command, and every visible
      command's category among them. */
  ghost predicate KeysSound(cmds: seq<Command>, isOwner: bool, cats: seq<Category>) {
    && DistinctKeys(cats)
    && (forall i :: 1 <= i < |cats| ==> HasVisible(cmds, isOwner, cats[i].0))
    && (forall key :: HasVisible(cmds, isOwner, key) ==> FindKey(cats, key) < |cats|)
  }

  /** Filing a visible last command keeps the key list sound: its keys come
      from visible commands and stay distinct. */
  lemma FiledKeysVisible(cmds: seq<Command>, isOwner: bool)
    requires |cmds| > 0 && Visible(cmds[|cmds| - 1], isOwner)
    requires KeysSound(cmds[..|cmds| - 1], isOwner, Categorize(cmds[..|cmds| - 1], isOwner))
    ensures var cats := Categorize(cmds, isOwner);
            && DistinctKeys(cats)
            && (forall i :: 1 <= i < |cats| ==> HasVisible(cmds, isOwner, cats[i].0))
  {
    var n := |cmds| - 1;
    var cmd := cmds[n];
    var before := Categorize(cmds[..n], isOwner);
    var cats := Categorize(cmds, isOwner);
    FileCommandKeys(before, cmd);
    assert forall i :: 0 <= i < |before| ==> cats[i].0 == before[i].0 by {
      forall i | 0 <= i < |before| ensures cats[i].0 == before[i].0 {
        assert Keys(cats)[i] == Keys(before)[i];
      }
    }
    forall i | 1 <= i < |cats|
      ensures HasVisible(cmds, isOwner, cats[i].0)
    {
      if i < |before| {
        HasVisiblePrefix(cmds, n, isOwner, before[i].0);
      } else {
        assert Keys(cats)[i] == cmd.category;
        assert cmds[n] == cmd;
      }
    }
  }

  /** Filing a visible last command keeps every visible category listed. */
  lemma FiledKeysComplete(cmds: seq<Command>, isOwner: bool)
    requires |cmds| > 0 && Visible(cmds[|cmds| - 1], isOwner)
    requires KeysSound(cmds[..|cmds| - 1], isOwner, Categorize(cmds[..|cmds| - 1], isOwner))
    ensures var cats := Categorize(cmds, isOwner);
            forall key :: HasVisible(cmds, isOwner, key) ==> FindKey(cats, key) < |cats|
  {
    var n := |cmds| - 1;
    var cmd := cmds[n];
    var before := Categorize(cmds[..n], isOwner);
    var cats := Categorize(cmds, isOwner);
    var k := FindKey(before, cmd.category);
    FileCommandKeys(before, cmd);
    forall key | HasVisible(cmds, isOwner, key)
      ensures FindKey(cats, key) < |cats|
    {
      HasVisibleLast(cmds, isOwner, key);
      if HasVisible(cmds[..n], isOwner, key) {
        var j := FindKey(before, key);
        assert Keys(cats)[j] == Keys(before)[j];
        FindKeyFound(cats, key, j);
      } else if k < |before| {
        FindKeyFound(cats, key, k);
      } else {
        assert Keys(cats)[|before|] == cmd.category;
        FindKeyFound(cats, key, |before|);
      }
    }
  }

  /** The category keys are sound for every command list. */
  lemma {:induction false} CategorizeKeys(cmds: seq<Command>, isOwner: bool)
    ensures KeysSound(cmds, isOwner, Categorize(cmds, isOwner))
    decreases |cmds|
  {
    if |cmds| > 0 {
      var n := |cmds| - 1;
      var cats := Categorize(cmds, isOwner);
      CategorizeKeys(cmds[..n], isOwner);
      if Visible(cmds[n], isOwner) {
        FiledKeysVisible(cmds, isOwner);
        FiledKeysComplete(cmds, isOwner);
      } else {
        forall i | 1 <= i < |cats|
          ensures HasVisible(cmds, isOwner, cats[i].0)
        {
          HasVisiblePrefix(cmds, n, isOwner, cats[i].0);
        }
        forall key | HasVisible(cmds, isOwner, key)
          ensures FindKey(cats, key) < |cats|
        {
          HasVisibleLast(cmds, isOwner, key);
        }
      }
    }
  }

  /** Filing the last command keeps the categories in first-appearance order:
      a category it opens is new, so its first visible command is this one,
      after those of every listed category. */
  lemma FiledInOrder(cmds: seq<Command>, isOwner: bool)
    requires |cmds| > 0
    requires var before := Categorize(cmds[..|cmds| - 1], isOwner);
             KeysSound(cmds[..|cmds| - 1], isOwner, before)
             && OrderedByFirst(cmds[..|cmds| - 1], isOwner, before)
    ensures OrderedByFirst(cmds, isOwner, Categorize(cmds, isOwner))
  {
    var n := |cmds| - 1;
    var prefix := cmds[..n];
    var before := Categorize(prefix, isOwner);
    var cats := Categorize(cmds, isOwner);
    var cmd := cmds[n];
    // A listed key keeps its first visible command, which lies in the prefix.
    forall i | 1 <= i < |before|
      ensures FirstVisible(cmds, isOwner, before[i].0) == FirstVisible(prefix, isOwner, before[i].0) < n
    {
    }
    if Visible(cmd, isOwner) {
      FileCommandKeys(before, cmd);
      var k := FindKey(before, cmd.category);
      if k == |before| {
        assert !HasVisible(prefix, isOwner, cmd.category);
        assert FirstVisible(cmds, isOwner, cmd.category) == n;
        forall i, j | 1 <= i < j < |cats|
          ensures FirstVisible(cmds, isOwner, cats[i].0) < FirstVisible(cmds, isOwner, cats[j].0)
        {
          assert cats[i].0 == before[i].0;
          if j < |before| {
            assert cats[j].0 == before[j].0;
          } else {
            assert cats[j].0 == cmd.category;
          }
        }
      } else {
        forall i | 0 <= i < |cats|
          ensures cats[i].0 == before[i].0
        {
          assert Keys(cats)[i] == Keys(before)[i];
        }
      }
    }
  }

  /** The categories after the first appear in the order of their first
      visible commands, as the source's loop appends them. */
  lemma {:induction false} CategoryOrder(cmds: seq<Command>, isOwner: bool)
    ensures OrderedByFirst(cmds, isOwner, Categorize(cmds, isOwner))
    decreases |cmds|
  {
    if |cmds| > 0 {
      var n := |cmds| - 1;
      CategoryOrder(cmds[..n], isOwner);
      CategorizeKeys(cmds[..n], isOwner);
      FiledInOrder(cmds, isOwner);
    }
  }

  /** A category with no visible command has an empty list. */
  lemma {:induction false} InCategoryEmpty(cmds: seq<Command>, isOwner: bool, key: Option<string>)
    requires !HasVisible(cmds, isOwner, key)
    ensures InCategory(cmds, isOwner, key) == []
    decreases |cmds|
  {
    if |cmds| > 0 {
      var n := |cmds| - 1;
      if HasVisible(cmds[..n], isOwner, key) {
        HasVisiblePrefix(cmds, n, isOwner, key);
      }
      InCategoryEmpty(cmds[..n], isOwner, key);
      assert !(Visible(cmds[n], isOwner) && cmds[n].category == key);
    }
  }

  /** Every category's list is exactly its visible commands, in order. */
  ghost predicate ListsSound(cmds: seq<Command>, isOwner: bool, cats: seq<Category>) {
    forall j :: 0 <= j < |cats| ==> cats[j].1 == InCategory(cmds, isOwner, cats[j].0)
  }

  /** Filing a visible last command keeps every list equal to its
      category's visible commands. */
  lemma FiledLists(cmds: seq<Command>, isOwner: bool)
    requires |cmds| > 0 && Visible(cmds[|cmds| - 1], isOwner)
    requires ListsSound(cmds[..|cmds| - 1], isOwner, Categorize(cmds[..|cmds| - 1], isOwner))
    requires DistinctKeys(Categorize(cmds[..|cmds| - 1], isOwner))
    requires !HasVisible(cmds[..|cmds| - 1], isOwner, cmds[|cmds| - 1].category)
             || FindKey(Categorize(cmds[..|cmds| - 1], isOwner), cmds[|cmds| - 1].category)
                < |Categorize(cmds[..|cmds| - 1], isOwner)|
    ensures ListsSound(cmds, isOwner, Categorize(cmds, isOwner))
  {
    var n := |cmds| - 1;
    var cmd := cmds[n];
    var prefix := cmds[..n];
    var before := Categorize(prefix, isOwner);
    var cats := Categorize(cmds, isOwner);
    var k := FindKey(before, cmd.category);
    assert cats == FileCommand(before, cmd);
    forall i | 0 <= i < |cats|
      ensures cats[i].1 == InCategory(cmds, isOwner, cats[i].0)
    {
      if i == |before| {
        InCategoryEmpty(prefix, isOwner, cmd.category);
        assert cats[i] == (cmd.category, [cmd]);
      } else if i == k {
        assert cats[i] == (cmd.category, before[k].1 + [cmd]);
        assert before[k].1 == InCategory(prefix, isOwner, cmd.category);
      } else {
        assert cats[i] == before[i];
        assert before[i].0 != cmd.category by {
          if i > k {
            assert before[k].0 == cmd.category;
          }
        }
        assert before[i].1 == InCategory(prefix, isOwner, before[i].0);
      }
    }
  }

  /** Each category lists exactly its visible commands, in registration order. */
  lemma {:induction false} CategorizeLists(cmds: seq<Command>, isOwner: bool)
    ensures ListsSound(cmds, isOwner, Categorize(cmds, isOwner))
    decreases |cmds|
  {
    if |cmds| > 0 {
      var n := |cmds| - 1;
      var before := Categorize(cmds[..n], isOwner);
      var cats := Categorize(cmds, isOwner);
      CategorizeLists(cmds[..n], isOwner);
      if Visible(cmds[n], isOwner) {
        CategorizeKeys(cmds[..n], isOwner);
        FiledLists(cmds, isOwner);
      } else {
        forall i | 0 <= i < |cats|
          ensures cats[i].1 == InCategory(cmds, isOwner, cats[i].0)
        {
          assert before[i].1 == InCategory(cmds[..n], isOwner, before[i].0);
        }
      }
    }
  }

  /** The uncategorised group is always listed first, even when it is empty,
      and holds exactly the visible commands without a category. */
  lemma UncategorisedFirst(cmds: seq<Command>, isOwner: bool)
    ensures Categorize(cmds, isOwner)[0] == (None, InCategory(cmds, isOwner, None))
  {
    CategorizeLists(cmds, isOwner);
  }

  /** The title of a category's field. */
  function CategoryTitle(key: Option<string>): (t: string)
    ensures key.None? ==> t == "No category"
    ensures key.Some? ==> t == key.value
  {
    key.GetOr("No category")
  }

  /** One command's line in its category field. */
  function CommandEntry(prefix: string, cmd: Command): string {
    "\\- **" + prefix + cmd.name + "** " + CommandUsage(cmd, true)
  }

  /** The fields of the help overview: a title and the joined entry lines per
      category, in category order. */
  function CategoryFields(prefix: string, cats: seq<Category>): (fs: seq<(string, string)>)
    ensures |fs| == |cats|
    ensures forall i :: 0 <= i < |cats| ==> fs[i].0 == CategoryTitle(cats[i].0)
  {
    seq(|cats|, i requires 0 <= i < |cats| =>
      (CategoryTitle(cats[i].0),
       Join(seq(|cats[i].1|, j requires 0 <= j < |cats[i].1| => CommandEntry(prefix, cats[i].1[j])), '\n')))
  }

  /** A command whose name and parameter names hold no line break. */
  predicate EntrySingleLine(cmd: Command) {
    Lacks(cmd.name, '\n') && forall p :: p in cmd.parameters ==> Lacks(p.name, '\n')
  }

  /** Joining parts free of `c` with a separator other than `c` gives a text
      free of `c`. */
  lemma {:induction false} JoinLacks(parts: seq<string>, sep: char, c: char)
    requires sep != c
    requires forall i :: 0 <= i < |parts| ==> Lacks(parts[i], c)
    ensures Lacks(Join(parts, sep), c)
    decreases |parts|
  {
    if |parts| > 1 {
      JoinLacks(parts[1..], sep, c);
      LacksConcat(parts[0], [sep], c);
      LacksConcat(parts[0] + [sep], Join(parts[1..], sep), c);
    }
  }

  /** A command's entry in the overview is one line. */
  lemma CommandEntrySingle(prefix: string, cmd: Command)
    requires Lacks(prefix, '\n') && EntrySingleLine(cmd)
    ensures Lacks(CommandEntry(prefix, cmd), '\n')
  {
    var ts := ParameterTokens(cmd.parameters);
    forall i | 0 <= i < |ts|
      ensures Lacks(ts[i], '\n')
    {
      var p := cmd.parameters[i];
      assert p in cmd.parameters;
      var (o, c) := if p.required then ("<", ">") else ("[", "]");
      assert ts[i] == o + p.name + c;
      LacksConcat(o, p.name, '\n');
      LacksConcat(o + p.name, c, '\n');
    }
    JoinLacks(ts, ' ', '\n');
    var u := CommandUsage(cmd, true);
    assert Lacks(u, '\n');
    LacksConcat("\\- **", prefix, '\n');
    LacksConcat("\\- **" + prefix, cmd.name, '\n');
    LacksConcat("\\- **" + prefix + cmd.name, "** ", '\n');
    LacksConcat("\\- **" + prefix + cmd.name + "** ", u, '\n');
  }

  /** A category's field splits back, line by line, into one entry per listed
      command, in order; a category with no commands has an empty field. */
  lemma CategoryEntries(prefix: string, cats: seq<Category>, i: nat)
    requires i < |cats|
    requires Lacks(prefix, '\n')
    requires forall cmd :: cmd in cats[i].1 ==> EntrySingleLine(cmd)
    ensures |cats[i].1| == 0 ==> CategoryFields(prefix, cats)[i].1 == ""
    ensures |cats[i].1| > 0 ==>
              var lines := Split(CategoryFields(prefix, cats)[i].1, '\n');
              |lines| == |cats[i].1|
              && forall j :: 0 <= j < |lines| ==> lines[j] == CommandEntry(prefix, cats[i].1[j])
  {
    var cmds := cats[i].1;
    var entries := seq(|cats[i].1|, j requires 0 <= j < |cats[i].1| => CommandEntry(prefix, cats[i].1[j]));
    assert CategoryFields(prefix, cats)[i] == (CategoryTitle(cats[i].0), Join(entries, '\n'));
    if |cmds| > 0 {
      forall j | 0 <= j < |entries|
        ensures Lacks(entries[j], '\n')
      {
        assert cmds[j] in cmds;
        CommandEntrySingle(prefix, cmds[j]);
      }
      SplitJoin(entries, '\n');
    }
  }

  // ---------------------------------------------------------------------------
  // Help for one command

  /** One argument line: name in backticks, a required marker, the
      description or a placeholder. */
  function ArgumentLine(p: Parameter): (line: string)
    ensures p.required ==> line == "- `" + p.name + "` (required) - " + p.description.GetOr("[Missing description]")
    ensures !p.required ==> line == "- `" + p.name + "` - " + p.description.GetOr("[Missing description]")
  {
    "- `" + p.name + "`" + (if p.required then " (required)" else "") + " - "
      + p.description.GetOr("[Missing description]")
  }

  /** What `command_help` shows: a not-found message, or the command's help. */
  datatype HelpReply =
    | NotFound(message: string)
    | CommandHelp(title: string, description: string, usage: string, arguments: Option<string>)

  /** Index of the first command named exactly `name`, or |cmds|. */
  function CommandIndex(cmds: seq<Command>, name: string): (k: nat)
    ensures k <= |cmds|
    ensures k < |cmds| ==> cmds[k].name == name
    ensures forall j :: 0 <= j < k ==> cmds[j].name != name
  {
    if |cmds| == 0 then 0
    else if cmds[0].name == name then 0
    else 1 + CommandIndex(cmds[1..], name)
  }

  /** `command_help`: the first command with exactly that name, or the
      not-found message. */
  function HelpFor(cmds: seq<Command>, prefix: string, name: string): (r: HelpReply)
    ensures r.NotFound? <==> forall j :: 0 <= j < |cmds| ==> cmds[j].name != name
    ensures r.NotFound? ==> r.message == "No command \"" + name + "\" found"
    ensures r.CommandHelp? ==>
              var cmd := cmds[CommandIndex(cmds, name)];
              && r.title == prefix + name
              && r.description == cmd.description.GetOr("")
              && r.usage == prefix + name + " " + CommandUsage(cmd, false)
              && (r.arguments.Some? <==> |cmd.parameters| > 0)
  {
    var k := CommandIndex(cmds, name);
    if k == |cmds| then NotFound("No command \"" + name + "\" found")
    else
      var cmd := cmds[k];
      var lines := seq(|cmd.parameters|, i requires 0 <= i < |cmd.parameters| => ArgumentLine(cmd.parameters[i]));
      CommandHelp(prefix + name, cmd.description.GetOr(""),
                  prefix + name + " " + CommandUsage(cmd, false),
                  if |cmd.parameters| == 0 then None else Some(Join(lines, '\n')))
  }

  /** A parameter whose name and description fit on one line. */
  predicate SingleLine(p: Parameter) {
    Lacks(p.name, '\n') && (p.description.Some? ==> Lacks(p.description.value, '\n'))
  }

  lemma LacksConcat(a: string, b: string, c: char)
    requires Lacks(a, c) && Lacks(b, c)
    ensures Lacks(a + b, c)
  {
    forall i | 0 <= i < |a + b|
      ensures (a + b)[i] != c
    {
      if i >= |a| {
        assert (a + b)[i] == b[i - |a|];
      }
    }
  }

  /** The argument line of a single-line parameter is a single line. */
  lemma ArgumentLineSingle(p: Parameter)
    requires SingleLine(p)
    ensures Lacks(ArgumentLine(p), '\n')
  {
    var marker := if p.required then " (required)" else "";
    var desc := p.description.GetOr("[Missing description]");
    assert Lacks("- `", '\n') && Lacks("`", '\n') && Lacks(marker, '\n') && Lacks(" - ", '\n');
    assert Lacks(desc, '\n');
    LacksConcat("- `", p.name, '\n');
    LacksConcat("- `" + p.name, "`", '\n');
    LacksConcat("- `" + p.name + "`", marker, '\n');
    LacksConcat("- `" + p.name + "`" + marker, " - ", '\n');
    LacksConcat("- `" + p.name + "`" + marker + " - ", desc, '\n');
  }

  /** The argument field has one line per parameter, in order, when no name
      or description contains a newline. */
  lemma ArgumentLines(cmds: seq<Command>, prefix: string, name: string)
    requires HelpFor(cmds, prefix, name).CommandHelp?
    requires forall p :: p in cmds[CommandIndex(cmds, name)].parameters ==> SingleLine(p)
    ensures var cmd := cmds[CommandIndex(cmds, name)];
            var r := HelpFor(cmds, prefix, name);
            r.arguments.Some? ==>
              var lines := Split(r.arguments.value, '\n');
              |lines| == |cmd.parameters|
              && forall i :: 0 <= i < |lines| ==> lines[i] == ArgumentLine(cmd.parameters[i])
  {
    var cmd := cmds[CommandIndex(cmds, name)];
    if |cmd.parameters| > 0 {
      var lines := seq(|cmd.parameters|, i requires 0 <= i < |cmd.parameters| => ArgumentLine(cmd.parameters[i]));
      forall i | 0 <= i < |lines|
        ensures Lacks(lines[i], '\n')
      {
        assert cmd.parameters[i] in cmd.parameters;
        ArgumentLineSingle(cmd.parameters[i]);
      }
      SplitJoin(lines, '\n');
    }
  }
}
