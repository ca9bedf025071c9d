/**
 Shell quoting and the environment prefix, against a model of the part of the POSIX shell that
 reads them: quoting as in section 2.2, `${name+word}` as in section 2.6.2, `;` and `||` lists, and
 the `export` and `[ -n ... ]` built-ins of POSIX.1-2017. A command the model does not know ends
 the run with its text and the environment it would start in.
 */
module Shell {
  import opened Common

  // ----- what the repository builds -----

  function QuoteBody(v: string): string {
    if v == "" then ""
    else (if v[0] == '\'' then "'\\''" else [v[0]]) + QuoteBody(v[1..])
  }

  function ShellQuote(v: string): string {
    "'" + (QuoteBody(v) + "'")
  }

  predicate NameStart(c: char) {
    'A' <= c <= 'Z' || 'a' <= c <= 'z' || c == '_'
  }

  predicate NameChar(c: char) {
    NameStart(c) || '0' <= c <= '9'
  }

  predicate ValidName(n: string) {
    n != "" && NameStart(n[0]) && forall i | 0 <= i < |n| :: NameChar(n[i])
  }

  datatype Pair = Pair(name: string, value: string)

  function Forced(p: Pair): string {
    "export " + (p.name + ("=" + (ShellQuote(p.value) + "; ")))
  }

  function Guarded(p: Pair): string {
    "[ -n \"${" + (p.name + ("+x}\" ] || " + Forced(p)))
  }

  function ForcedAll(env: seq<Pair>, rest: string): string {
    if env == [] then rest else Forced(env[0]) + ForcedAll(env[1..], rest)
  }

  function GuardedAll(defaults: seq<Pair>, rest: string): string {
    if defaults == [] then rest else Guarded(defaults[0]) + GuardedAll(defaults[1..], rest)
  }

  predicate ValidNames(pairs: seq<Pair>) {
    forall i | 0 <= i < |pairs| :: ValidName(pairs[i].name)
  }

  function WithEnvPrefix(cmd: string, env: seq<Pair>, defaults: seq<Pair>): Result<string> {
    if !ValidNames(env + defaults) then Err("Invalid environment name")
    else Ok(ForcedAll(env, GuardedAll(defaults, cmd)))
  }

  function BuildGitCloneCommand(repo: string, branch: Option<string>, target: string): string {
    "git clone " +
    ((if branch.Some? && branch.value != "" then "--branch " + (ShellQuote(branch.value) + " ") else "") +
     (ShellQuote(repo) + (" " + ShellQuote(target))))
  }

  // ----- reading a word -----

  type Environment = map<string, string>

  /** The value of the word that starts a text, and the text after it. */
  datatype Lexed = Lexed(value: string, rest: string) | Unreadable

  predicate Blank(c: char) {
    c == ' ' || c == '\t'
  }

  /** Unquoted characters that end a word. */
  predicate Delimiter(c: char) {
    Blank(c) || c == '\n' || c == ';' || c == '|' || c == '&' || c == '<' || c == '>' || c == '(' || c == ')'
  }

  predicate Special(c: char) {
    Delimiter(c) || c == '\'' || c == '"' || c == '\\' || c == '$' || c == '`' || c as int == 0
  }

  function Prepend(v: string, w: Lexed): Lexed {
    if w.Unreadable? then w else Lexed(v + w.value, w.rest)
  }

  /** Unquoted text. */
  function ReadWord(s: string, env: Environment): (w: Lexed)
    ensures w.Lexed? ==> |w.rest| <= |s| && (s != "" && !Delimiter(s[0]) ==> |w.rest| < |s|)
    decreases |s|
  {
    if s == "" || Delimiter(s[0]) then Lexed("", s)
    else if s[0] == '\'' then InSingleQuotes(s[1..], env)
    else if s[0] == '"' then InDoubleQuotes(s[1..], env)
    else if s[0] == '\\' then
      if |s| < 2 || s[1] as int == 0 then Unreadable
      else if s[1] == '\n' then ReadWord(s[2..], env)
      else Prepend([s[1]], ReadWord(s[2..], env))
    else if Special(s[0]) then Unreadable
    else Prepend([s[0]], ReadWord(s[1..], env))
  }

  /** Everything up to the next single quote is literal. */
  function InSingleQuotes(s: string, env: Environment): (w: Lexed)
    ensures w.Lexed? ==> |w.rest| < |s|
    decreases |s|
  {
    if s == "" || s[0] as int == 0 then Unreadable
    else if s[0] == '\'' then ReadWord(s[1..], env)
    else Prepend([s[0]], InSingleQuotes(s[1..], env))
  }

  function InDoubleQuotes(s: string, env: Environment): (w: Lexed)
    ensures w.Lexed? ==> |w.rest| < |s|
    decreases |s|
  {
    if s == "" || s[0] as int == 0 || s[0] == '`' then Unreadable
    else if s[0] == '"' then ReadWord(s[1..], env)
    else if s[0] == '\\' then
      if |s| >= 2 && s[1] in {'$', '`', '"', '\\'} then Prepend([s[1]], InDoubleQuotes(s[2..], env))
      else if |s| >= 2 && s[1] == '\n' then InDoubleQuotes(s[2..], env)
      else Prepend("\\", InDoubleQuotes(s[1..], env))
    else if s[0] == '$' then
      var n := if |s| >= 2 && s[1] == '{' then NameLength(s[2..]) else 0;
      if n > 0 && |s| >= n + 5 && s[n + 2..n + 5] == "+x}" then
        Prepend(if s[2..n + 2] in env then "x" else "", InDoubleQuotes(s[n + 5..], env))
      else Unreadable
    else Prepend([s[0]], InDoubleQuotes(s[1..], env))
  }

  function NameLength(s: string): (n: nat)
    ensures n <= |s|
  {
    if s == "" || !NameChar(s[0]) then 0 else 1 + NameLength(s[1..])
  }

  // ----- reading and running commands -----

  function SkipBlanks(s: string): (r: string)
    ensures |r| <= |s|
  {
    if s != "" && Blank(s[0]) then SkipBlanks(s[1..]) else s
  }

  datatype Ending = AtEnd | AtSemicolon | AtOr

  datatype Command = Command(words: seq<string>, ending: Ending, rest: string) | NoCommand

  function WithWord(w: string, c: Command): Command {
    if c.NoCommand? then c else c.(words := [w] + c.words)
  }

  /** One simple command and the operator after it. */
  function ReadCommand(s: string, env: Environment): (c: Command)
    ensures c.Command? && c.ending != AtEnd ==> |c.rest| < |s|
    decreases |s|
  {
    var t := SkipBlanks(s);
    if t == "" then Command([], AtEnd, "")
    else if t[0] == ';' then Command([], AtSemicolon, t[1..])
    else if |t| >= 2 && t[0] == '|' && t[1] == '|' then Command([], AtOr, t[2..])
    else if Delimiter(t[0]) then NoCommand
    else
      var w := ReadWord(t, env);
      if w.Unreadable? then NoCommand else WithWord(w.value, ReadCommand(w.rest, env))
  }

  /** The effect and exit status of a built-in. */
  datatype Effect = Effect(env: Environment, ok: bool) | NotBuiltIn

  function RunBuiltIn(words: seq<string>, env: Environment): Effect {
    if |words| == 2 && words[0] == "export" then
      var n := NameLength(words[1]);
      if n > 0 && ValidName(words[1][..n]) && n < |words[1]| && words[1][n] == '='
      then Effect(env[words[1][..n] := words[1][n + 1..]], true) else NotBuiltIn
    else if |words| == 4 && words[0] == "[" && words[1] == "-n" && words[3] == "]" then Effect(env, words[2] != "")
    else NotBuiltIn
  }

  /** Where a run leaves the modelled part of the shell: the text still to run and its environment. */
  datatype Reached = Reached(env: Environment, script: string)

  /** Run a list of commands; `skip` says that the last `||` already succeeded. */
  function Run(s: string, env: Environment, skip: bool): Reached
    decreases |s|
  {
    var c := ReadCommand(s, env);
    var e := if c.Command? then RunBuiltIn(c.words, env) else NotBuiltIn;
    if c.NoCommand? || c.ending == AtEnd || e.NotBuiltIn? then Reached(env, SkipBlanks(s))
    else
      var env', ok := if skip then env else e.env, skip || e.ok;
      Run(c.rest, env', c.ending == AtOr && ok)
  }

  /** The words of a command line without operators. */
  function Words(s: string): Option<seq<string>> {
    var c := ReadCommand(s, map[]);
    if c.Command? && c.ending == AtEnd then Some(c.words) else None
  }

  // ----- quoting -----

  ghost predicate NulFree(s: string) {
    forall i | 0 <= i < |s| :: s[i] as int != 0
  }

  lemma PrependConcat(a: string, b: string, w: Lexed)
    ensures Prepend(a, Prepend(b, w)) == Prepend(a + b, w)
    ensures Prepend("", w) == w
  {
    if w.Lexed? {
      assert a + (b + w.value) == a + b + w.value && "" + w.value == w.value;
    }
  }

  lemma {:induction false} ReadPlain(p: string, s: string, env: Environment)
    requires forall i | 0 <= i < |p| :: !Special(p[i])
    ensures ReadWord(p + s, env) == Prepend(p, ReadWord(s, env))
  {
    if p == "" {
      assert p + s == s;
      PrependConcat("", "", ReadWord(s, env));
    } else {
      assert (p + s)[0] == p[0] && (p + s)[1..] == p[1..] + s;
      ReadPlain(p[1..], s, env);
      PrependConcat([p[0]], p[1..], ReadWord(s, env));
      assert p == [p[0]] + p[1..];
    }
  }

  lemma {:induction false} ReadQuoteBody(v: string, s: string, env: Environment)
    requires NulFree(v)
    ensures InSingleQuotes(QuoteBody(v) + ("'" + s), env) == Prepend(v, ReadWord(s, env))
  {
    hide ReadWord, InSingleQuotes;
    var after := ReadWord(s, env);
    if v == "" {
      assert QuoteBody(v) + ("'" + s) == "'" + s;
      CloseQuotes(s, env);
      PrependConcat("", "", after);
    } else {
      var rest := QuoteBody(v[1..]) + ("'" + s);
      ReadQuoteBody(v[1..], s, env);
      PrependConcat([v[0]], v[1..], after);
      assert v == [v[0]] + v[1..];
      if v[0] == '\'' {
        assert QuoteBody(v) + ("'" + s) == "'\\''" + rest;
        ReadEscapedQuote(rest, env);
      } else {
        assert QuoteBody(v) + ("'" + s) == [v[0]] + rest;
        ReadQuotedChar(v[0], rest, env);
      }
    }
  }

  lemma CloseQuotes(s: string, env: Environment)
    ensures InSingleQuotes("'" + s, env) == ReadWord(s, env)
  {
    assert ("'" + s)[1..] == s;
  }

  lemma ReadQuotedChar(c: char, s: string, env: Environment)
    requires c != '\'' && c as int != 0
    ensures InSingleQuotes([c] + s, env) == Prepend([c], InSingleQuotes(s, env))
  {
    assert ([c] + s)[1..] == s;
  }

  /** Closing the quotes, an escaped quote and reopening them stand for one quote. */
  lemma ReadEscapedQuote(s: string, env: Environment)
    ensures InSingleQuotes("'\\''" + s, env) == Prepend("'", InSingleQuotes(s, env))
  {
    hide ReadWord, InSingleQuotes;
    assert "'\\''" + s == "'" + ("\\'" + ("'" + s));
    CloseQuotes("\\'" + ("'" + s), env);
    EscapedQuote("'" + s, env);
    OpenQuotes(s, env);
  }

  lemma OpenQuotes(s: string, env: Environment)
    ensures ReadWord("'" + s, env) == InSingleQuotes(s, env)
  {
    hide InSingleQuotes;
    assert ("'" + s)[1..] == s;
  }

  lemma EscapedQuote(s: string, env: Environment)
    ensures ReadWord("\\'" + s, env) == Prepend("'", ReadWord(s, env))
  {
    hide InSingleQuotes, InDoubleQuotes;
    var t := "\\'" + s;
    assert t[0] == '\\' && t[1] == '\'' && t[2..] == s;
  }

  /** The shell reads a quoted string back as the string itself. */
  lemma ReadQuoted(v: string, s: string, env: Environment)
    requires NulFree(v)
    ensures ReadWord(ShellQuote(v) + s, env) == Prepend(v, ReadWord(s, env))
  {
    ReadQuoteBody(v, s, env);
    assert ShellQuote(v) + s == "'" + (QuoteBody(v) + ("'" + s));
    assert ("'" + (QuoteBody(v) + ("'" + s)))[1..] == QuoteBody(v) + ("'" + s);
  }

  /** A word in front of a delimiter, or at the end, is one argument. */
  lemma CommandWord(text: string, value: string, s: string, env: Environment)
    requires text != "" && !Delimiter(text[0]) && (s == "" || Delimiter(s[0]))
    requires ReadWord(text + s, env) == Prepend(value, ReadWord(s, env))
    ensures ReadCommand(text + s, env) == WithWord(value, ReadCommand(s, env))
  {
    var t := text + s;
    assert t[0] == text[0];
    assert SkipBlanks(t) == t;
    assert ReadWord(s, env) == Lexed("", s);
    assert value + "" == value;
  }

  lemma CommandBlank(s: string, env: Environment)
    ensures ReadCommand(" " + s, env) == ReadCommand(s, env)
  {
    assert (" " + s)[1..] == s;
  }

  lemma QuotedWord(v: string, s: string, env: Environment)
    requires NulFree(v) && (s == "" || Delimiter(s[0]))
    ensures ReadCommand(ShellQuote(v) + s, env) == WithWord(v, ReadCommand(s, env))
  {
    hide ReadCommand, ReadWord;
    ReadQuoted(v, s, env);
    CommandWord(ShellQuote(v), v, s, env);
  }

  lemma PlainWord(p: string, s: string, env: Environment)
    requires p != "" && (forall i | 0 <= i < |p| :: !Special(p[i])) && (s == "" || Delimiter(s[0]))
    ensures ReadCommand(p + s, env) == WithWord(p, ReadCommand(s, env))
  {
    hide ReadCommand, ReadWord;
    ReadPlain(p, s, env);
    CommandWord(p, p, s, env);
  }

  function QuoteAll(args: seq<string>): string {
    if args == [] then ""
    else ShellQuote(args[0]) + if |args| == 1 then "" else " " + QuoteAll(args[1..])
  }

  lemma {:induction false} QuoteAllReadsBack(args: seq<string>, env: Environment)
    requires forall i | 0 <= i < |args| :: NulFree(args[i])
    ensures ReadCommand(QuoteAll(args), env) == Command(args, AtEnd, "")
  {
    hide ShellQuote;
    if args != [] {
      var rest := if |args| == 1 then "" else " " + QuoteAll(args[1..]);
      QuotedWord(args[0], rest, env);
      QuoteAllReadsBack(args[1..], env);
      if |args| > 1 { CommandBlank(QuoteAll(args[1..]), env); } else { assert args[1..] == []; }
      assert args == [args[0]] + args[1..];
    }
  }

  /** Any list of quoted strings, joined by spaces, is split by the shell into exactly that list. */
  lemma QuotedListTokenizes(args: seq<string>)
    requires forall i | 0 <= i < |args| :: NulFree(args[i])
    ensures Words(QuoteAll(args)) == Some(args)
  {
    QuoteAllReadsBack(args, map[]);
  }

  /** No repository, branch or target can add, drop or split an argument of `git clone`. */
  lemma GitCloneArguments(repo: string, branch: Option<string>, target: string)
    requires NulFree(repo) && NulFree(target) && (branch.Some? ==> NulFree(branch.value))
    ensures Words(BuildGitCloneCommand(repo, branch, target)) ==
            Some(["git", "clone"]
                 + (if branch.Some? && branch.value != "" then ["--branch", branch.value] else [])
                 + [repo, target])
  {
    hide ReadCommand, ShellQuote, Delimiter, Special;
    var env: Environment := map[];
    var tail := ShellQuote(repo) + (" " + ShellQuote(target));
    QuoteAllReadsBack([repo, target], env);
    assert [repo, target][1..] == [target];
    assert QuoteAll([target]) == ShellQuote(target) + "" == ShellQuote(target);
    assert QuoteAll([repo, target]) == tail;
    assert ReadCommand(tail, env) == Command([repo, target], AtEnd, "");
    var args := if branch.Some? && branch.value != "" then ["--branch", branch.value] else [];
    var option := if branch.Some? && branch.value != "" then "--branch " + (ShellQuote(branch.value) + " ") else "";
    var middle := option + tail;
    GitBranch(branch, tail, [repo, target]);
    assert ReadCommand(middle, env) == Command(args + [repo, target], AtEnd, "");
    GitClone(middle, args + [repo, target]);
    assert ["git", "clone"] + (args + [repo, target]) == ["git", "clone"] + args + [repo, target];
  }

  lemma GitClone(s: string, words: seq<string>)
    requires ReadCommand(s, map[]) == Command(words, AtEnd, "")
    ensures ReadCommand("git clone " + s, map[]) == Command(["git", "clone"] + words, AtEnd, "")
  {
    hide ReadCommand;
    assert "git clone " + s == "git" + (" " + ("clone" + (" " + s)));
    PlainWord("git", " " + ("clone" + (" " + s)), map[]);
    CommandBlank("clone" + (" " + s), map[]);
    PlainWord("clone", " " + s, map[]);
    CommandBlank(s, map[]);
    assert ["git"] + (["clone"] + words) == ["git", "clone"] + words;
  }

  lemma BranchIsPlain()
    ensures forall i | 0 <= i < |"--branch"| :: !Special("--branch"[i])
  {
    var p := "--branch";
    assert p[0] == '-' && p[1] == '-' && p[2] == 'b' && p[3] == 'r' && p[4] == 'a' && p[5] == 'n' && p[6] == 'c'
          && p[7] == 'h';
  }

  lemma GitBranch(branch: Option<string>, s: string, words: seq<string>)
    requires (branch.Some? ==> NulFree(branch.value)) && ReadCommand(s, map[]) == Command(words, AtEnd, "")
    ensures var named := branch.Some? && branch.value != "";
            ReadCommand((if named then "--branch " + (ShellQuote(branch.value) + " ") else "") + s, map[]) ==
            Command((if named then ["--branch", branch.value] else []) + words, AtEnd, "")
  {
    hide ReadCommand, ShellQuote, Special;
    if branch.Some? && branch.value != "" {
      var q := ShellQuote(branch.value);
      assert "--branch " + (q + " ") + s == "--branch" + (" " + (q + (" " + s)));
      BranchIsPlain();
      PlainWord("--branch", " " + (q + (" " + s)), map[]);
      CommandBlank(q + (" " + s), map[]);
      QuotedWord(branch.value, " " + s, map[]);
      CommandBlank(s, map[]);
      assert ["--branch"] + ([branch.value] + words) == ["--branch", branch.value] + words;
    } else {
      assert "" + s == s && [] + words == words;
    }
  }

  // ----- the environment prefix -----

  lemma {:induction false} NameLengthIs(n: string, s: string)
    requires (forall i | 0 <= i < |n| :: NameChar(n[i])) && (s == "" || !NameChar(s[0]))
    ensures NameLength(n + s) == |n|
  {
    if n == "" {
      assert n + s == s;
    } else {
      assert (n + s)[0] == n[0] && (n + s)[1..] == n[1..] + s;
      NameLengthIs(n[1..], s);
    }
  }

  lemma RunBlank(s: string, env: Environment, skip: bool)
    ensures Run(" " + s, env, skip) == Run(s, env, skip)
  {
    CommandBlank(s, env);
    assert (" " + s)[1..] == s;
  }

  lemma ReadForced(p: Pair, s: string, env: Environment)
    requires ValidName(p.name) && NulFree(p.value)
    ensures ReadCommand(Forced(p) + s, env) == Command(["export", p.name + ("=" + p.value)], AtSemicolon, " " + s)
  {
    hide ReadCommand, ReadWord, ShellQuote, NameChar, Special, Delimiter;
    var q := ShellQuote(p.value);
    var assignment := p.name + ("=" + q);
    assert Forced(p) + s == "export" + (" " + (assignment + ("; " + s)));
    ExportIsPlain();
    PlainWord("export", " " + (assignment + ("; " + s)), env);
    CommandBlank(assignment + ("; " + s), env);
    ReadAssignment(p, "; " + s, env);
    SemicolonEnds(s, env);
    assert ["export"] + ([p.name + ("=" + p.value)] + []) == ["export", p.name + ("=" + p.value)];
  }

  lemma ExportIsPlain()
    ensures forall i | 0 <= i < 6 :: !Special("export"[i])
    ensures Delimiter(' ') && Delimiter(';')
  {
  }

  lemma SemicolonEnds(s: string, env: Environment)
    ensures ReadCommand("; " + s, env) == Command([], AtSemicolon, " " + s)
  {
    assert ("; " + s)[1..] == " " + s;
  }

  lemma ReadAssignment(p: Pair, s: string, env: Environment)
    requires ValidName(p.name) && NulFree(p.value) && s != "" && Delimiter(s[0])
    ensures ReadCommand(p.name + ("=" + ShellQuote(p.value)) + s, env) ==
            WithWord(p.name + ("=" + p.value), ReadCommand(s, env))
  {
    hide ReadCommand, ReadWord, ShellQuote;
    var q := ShellQuote(p.value);
    var plain := p.name + "=";
    assert p.name + ("=" + q) + s == plain + (q + s);
    ReadPlain(plain, q + s, env);
    ReadQuoted(p.value, s, env);
    PrependConcat(plain, p.value, ReadWord(s, env));
    assert plain + p.value == p.name + ("=" + p.value);
    CommandWord(p.name + ("=" + q), p.name + ("=" + p.value), s, env);
  }

  lemma ExportEffect(p: Pair, env: Environment)
    requires ValidName(p.name)
    ensures RunBuiltIn(["export", p.name + ("=" + p.value)], env) == Effect(env[p.name := p.value], true)
  {
    var w := p.name + ("=" + p.value);
    NameLengthIs(p.name, "=" + p.value);
    assert w[..|p.name|] == p.name && w[|p.name| + 1..] == p.value;
  }

  lemma RunForced(p: Pair, s: string, env: Environment, skip: bool)
    requires ValidName(p.name) && NulFree(p.value)
    ensures Run(Forced(p) + s, env, skip) == Run(s, if skip then env else env[p.name := p.value], false)
  {
    hide ReadCommand, Forced, RunBuiltIn;
    ReadForced(p, s, env);
    ExportEffect(p, env);
    RunBlank(s, if skip then env else env[p.name := p.value], false);
  }

  /** Inside double quotes `${name+x}` is `x` when the variable is set, even to the empty string. */
  lemma ReadSetTest(name: string, s: string, env: Environment)
    requires ValidName(name)
    ensures ReadWord("\"${" + (name + ("+x}\"" + s)), env) == Prepend(if name in env then "x" else "", ReadWord(s, env))
  {
    hide ReadWord, InDoubleQuotes;
    var inner := "${" + (name + ("+x}\"" + s));
    assert "\"${" + (name + ("+x}\"" + s)) == "\"" + inner;
    DoubleQuotes(inner, env);
    SetTestSlices(name, s);
    ExpandSetTest(inner, |name|, env);
    DoubleQuotes(s, env);
  }

  /** A double quote opens a quoted part, and inside one it closes it. */
  lemma DoubleQuotes(s: string, env: Environment)
    ensures ReadWord("\"" + s, env) == InDoubleQuotes(s, env)
    ensures InDoubleQuotes("\"" + s, env) == ReadWord(s, env)
  {
    assert ("\"" + s)[1..] == s;
  }

  lemma SetTestSlices(name: string, s: string)
    ensures var inner, n := "${" + (name + ("+x}\"" + s)), |name|;
            && inner[2..] == name + ("+x}\"" + s) && inner[2..n + 2] == name
            && inner[n + 2..n + 5] == "+x}" && inner[n + 5..] == "\"" + s
  {
    var inner, n := "${" + (name + ("+x}\"" + s)), |name|;
    assert inner[n + 2..] == "+x}\"" + s;
    assert inner[n + 2] == '+' && inner[n + 3] == 'x' && inner[n + 4] == '}';
  }

  lemma ExpandSetTest(inner: string, n: nat, env: Environment)
    requires n > 0 && |inner| >= n + 5 && inner[0] == '$' && inner[1] == '{'
    requires ValidName(inner[2..n + 2]) && inner[n + 2..n + 5] == "+x}"
    ensures InDoubleQuotes(inner, env) ==
            Prepend(if inner[2..n + 2] in env then "x" else "", InDoubleQuotes(inner[n + 5..], env))
  {
    assert inner[n + 2] == inner[n + 2..n + 5][0] == '+';
    assert inner[2..] == inner[2..n + 2] + inner[n + 2..];
    NameLengthIs(inner[2..n + 2], inner[n + 2..]);
  }

  /** The words of the test from its probe on. */
  lemma ReadProbe(name: string, t: string, env: Environment)
    requires ValidName(name)
    ensures ReadCommand("\"${" + (name + "+x}\"") + (" ] || " + t), env) ==
            Command([if name in env then "x" else "", "]"], AtOr, " " + t)
  {
    hide ReadCommand, ReadWord, Special, Delimiter, NameChar;
    var value := if name in env then "x" else "";
    var end := " ] || " + t;
    var probe := "\"${" + (name + "+x}\"");
    BracketsArePlain();
    assert probe + end == "\"${" + (name + ("+x}\"" + end));
    ReadSetTest(name, end, env);
    CommandWord(probe, value, end, env);
    assert end == " " + ("]" + (" || " + t));
    CommandBlank("]" + (" || " + t), env);
    PlainWord("]", " || " + t, env);
    OrEnds(t, env);
    assert [value] + (["]"] + []) == [value, "]"];
  }

  lemma ReadGuard(name: string, t: string, env: Environment)
    requires ValidName(name)
    ensures ReadCommand("[ -n \"${" + (name + ("+x}\" ] || " + t)), env) ==
            Command(["[", "-n", if name in env then "x" else "", "]"], AtOr, " " + t)
  {
    hide ReadCommand, ReadWord, Special, Delimiter, NameChar;
    var value := if name in env then "x" else "";
    var rest := "\"${" + (name + "+x}\"") + (" ] || " + t);
    GuardParts(name, t);
    ReadProbe(name, t, env);
    BracketsArePlain();
    PlainWord("[", " " + ("-n" + (" " + rest)), env);
    CommandBlank("-n" + (" " + rest), env);
    PlainWord("-n", " " + rest, env);
    CommandBlank(rest, env);
    assert ["["] + (["-n"] + [value, "]"]) == ["[", "-n", value, "]"];
  }

  lemma GuardParts(name: string, t: string)
    ensures "[ -n \"${" + (name + ("+x}\" ] || " + t)) ==
            "[" + (" " + ("-n" + (" " + ("\"${" + (name + "+x}\"") + (" ] || " + t)))))
  {
  }

  lemma BracketsArePlain()
    ensures !Special('[') && !Special(']') && !Special('-') && !Special('n')
    ensures Delimiter(' ') && !Delimiter('"')
  {
  }

  lemma OrEnds(t: string, env: Environment)
    ensures ReadCommand(" || " + t, env) == Command([], AtOr, " " + t)
  {
    assert " || " + t == " " + ("|| " + t);
    CommandBlank("|| " + t, env);
    assert ("|| " + t)[2..] == " " + t;
  }

  lemma RunGuarded(p: Pair, s: string, env: Environment)
    requires ValidName(p.name) && NulFree(p.value)
    ensures Run(Guarded(p) + s, env, false) == Run(s, if p.name in env then env else env[p.name := p.value], false)
  {
    hide ReadCommand, Forced;
    var t := Forced(p) + s;
    assert Guarded(p) + s == "[ -n \"${" + (p.name + ("+x}\" ] || " + t));
    ReadGuard(p.name, t, env);
    RunBlank(t, env, p.name in env);
    RunForced(p, s, env, p.name in env);
  }

  function Exported(e: Environment, env: seq<Pair>): Environment
    decreases env
  {
    if env == [] then e else Exported(e[env[0].name := env[0].value], env[1..])
  }

  function Defaulted(e: Environment, defaults: seq<Pair>): Environment
    decreases defaults
  {
    if defaults == [] then e
    else Defaulted(if defaults[0].name in e then e else e[defaults[0].name := defaults[0].value], defaults[1..])
  }

  ghost predicate Runnable(pairs: seq<Pair>) {
    forall i | 0 <= i < |pairs| :: ValidName(pairs[i].name) && NulFree(pairs[i].value)
  }

  lemma {:induction false} RunForcedAll(env: seq<Pair>, s: string, e: Environment)
    requires Runnable(env)
    ensures Run(ForcedAll(env, s), e, false) == Run(s, Exported(e, env), false)
    decreases |env|
  {
    hide Run, Forced;
    if env != [] {
      RunForced(env[0], ForcedAll(env[1..], s), e, false);
      RunForcedAll(env[1..], s, e[env[0].name := env[0].value]);
    }
  }

  lemma {:induction false} RunGuardedAll(defaults: seq<Pair>, s: string, e: Environment)
    requires Runnable(defaults)
    ensures Run(GuardedAll(defaults, s), e, false) == Run(s, Defaulted(e, defaults), false)
    decreases |defaults|
  {
    hide Run, Guarded;
    if defaults != [] {
      var p := defaults[0];
      RunGuarded(p, GuardedAll(defaults[1..], s), e);
      RunGuardedAll(defaults[1..], s, if p.name in e then e else e[p.name := p.value]);
    }
  }

  /** The value an object holds under a name, if any; an object has each name once. */
  function ValueOf(pairs: seq<Pair>, name: string): Option<string> {
    if pairs == [] then None else if pairs[0].name == name then Some(pairs[0].value) else ValueOf(pairs[1..], name)
  }

  ghost predicate Distinct(pairs: seq<Pair>) {
    forall i, j | 0 <= i < j < |pairs| :: pairs[i].name != pairs[j].name
  }

  lemma {:induction false} ValueMissing(pairs: seq<Pair>, name: string)
    requires forall i | 0 <= i < |pairs| :: pairs[i].name != name
    ensures ValueOf(pairs, name) == None
  {
    if pairs != [] { ValueMissing(pairs[1..], name); }
  }

  lemma {:induction false} ExportedLookup(e: Environment, env: seq<Pair>, name: string)
    requires Distinct(env)
    ensures var v, r := ValueOf(env, name), Exported(e, env);
            (name in r <==> v.Some? || name in e) && (name in r ==> r[name] == if v.Some? then v.value else e[name])
    decreases |env|
  {
    if env != [] {
      ExportedLookup(e[env[0].name := env[0].value], env[1..], name);
      if env[0].name == name { ValueMissing(env[1..], name); }
    }
  }

  lemma {:induction false} DefaultedLookup(e: Environment, defaults: seq<Pair>, name: string)
    ensures var v, r := ValueOf(defaults, name), Defaulted(e, defaults);
            (name in r <==> name in e || v.Some?) && (name in r ==> r[name] == if name in e then e[name] else v.value)
    decreases |defaults|
  {
    if defaults != [] {
      var p := defaults[0];
      DefaultedLookup(if p.name in e then e else e[p.name := p.value], defaults[1..], name);
    }
  }

  /**
   Running the prefixed command is running the command in an environment where every variable has
   the forced value if one is given, else the inherited value if it is set, else the default.
   */
  lemma PrefixSetsEnvironment(cmd: string, env: seq<Pair>, defaults: seq<Pair>, inherited: Environment)
    returns (final: Environment)
    requires Runnable(env) && Runnable(defaults) && Distinct(env)
    ensures WithEnvPrefix(cmd, env, defaults).Ok?
    ensures Run(WithEnvPrefix(cmd, env, defaults).value, inherited, false) == Run(cmd, final, false)
    ensures forall name :: name in final <==>
              ValueOf(env, name).Some? || name in inherited || ValueOf(defaults, name).Some?
    ensures forall name | name in final :: final[name] ==
              if ValueOf(env, name).Some? then ValueOf(env, name).value
              else if name in inherited then inherited[name]
              else ValueOf(defaults, name).value
  {
    hide Run, Forced, Guarded;
    RunForcedAll(env, GuardedAll(defaults, cmd), inherited);
    var forced := Exported(inherited, env);
    RunGuardedAll(defaults, cmd, forced);
    final := Defaulted(forced, defaults);
    forall name
      ensures name in final <==> ValueOf(env, name).Some? || name in inherited || ValueOf(defaults, name).Some?
      ensures name in final ==>
                (final[name] ==
                 if ValueOf(env, name).Some? then ValueOf(env, name).value
                 else if name in inherited then inherited[name]
                 else ValueOf(defaults, name).value)
    {
      ExportedLookup(inherited, env, name);
      DefaultedLookup(forced, defaults, name);
    }
  }

  /** The codes of digits, capitals, the underscore and small letters. */
  predicate WordCode(v: int) {
    48 <= v <= 57 || 65 <= v <= 90 || v == 95 || 97 <= v <= 122
  }

  /** The names that are allowed: one or more letters, digits and underscores, and no digit first. */
  lemma NamesArePosixNames(name: string)
    ensures ValidName(name) <==>
            name != "" && !(48 <= name[0] as int <= 57) && forall i | 0 <= i < |name| :: WordCode(name[i] as int)
  {
  }

  /** An invalid name anywhere is refused before any text is built. */
  lemma InvalidNameIsRefused(cmd: string, env: seq<Pair>, defaults: seq<Pair>)
    ensures WithEnvPrefix(cmd, env, defaults).Err? <==> !(ValidNames(env) && ValidNames(defaults))
  {
    var all := env + defaults;
    assert forall i | 0 <= i < |env| :: all[i] == env[i];
    assert forall i | 0 <= i < |defaults| :: all[|env| + i] == defaults[i];
  }
}
