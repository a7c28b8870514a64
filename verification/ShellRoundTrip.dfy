/**
 Printing a command and parsing it again: for a printer that puts every part into parentheses, parsing is
 its inverse.
 */
module ShellRoundTrip {
  import opened ShellSyntax

  /** A command as it is meant, without positions. */
  datatype Tree =
    | TExec(args: seq<string>)
    | TRedir(cmd: Tree, file: string, mode: Mode)
    | TPipe(left: Tree, right: Tree)
    | TList(left: Tree, right: Tree)
    | TBack(cmd: Tree)

  predicate PlainWord(w: string) {
    w != [] && forall i :: 0 <= i < |w| ==> Plain(w[i]) && w[i] != '\0'
  }

  /** At most nine arguments, and only non-empty plain words. */
  predicate Printable(t: Tree) {
    match t
    case TExec(args) => |args| < MAXARGS && forall i :: 0 <= i < |args| ==> PlainWord(args[i])
    case TRedir(c, file, _) => Printable(c) && PlainWord(file)
    case TPipe(l, r) => Printable(l) && Printable(r)
    case TList(l, r) => Printable(l) && Printable(r)
    case TBack(c) => Printable(c)
  }

  function Join(args: seq<string>): string {
    if args == [] then []
    else if |args| == 1 then args[0]
    else args[0] + " " + Join(args[1..])
  }

  function Arrow(m: Mode): string {
    match m case Input => "<" case Truncate => ">" case Extend => ">>"
  }

  function Paren(s: string): string {
    "(" + s + ")"
  }

  /** The specification of printing. */
  function Print(t: Tree): string {
    match t
    case TExec(args) => Join(args)
    case TRedir(c, file, mode) => Paren(Print(c)) + Arrow(mode) + file
    case TPipe(l, r) => Paren(Print(l)) + "|" + Paren(Print(r))
    case TList(l, r) => Paren(Print(l)) + ";" + Paren(Print(r))
    case TBack(c) => Paren(Print(c)) + "&"
  }

  function Text(line: string, w: Range): string {
    if w.start <= w.end <= |line| then line[w.start..w.end] else []
  }

  /** What a parsed command means. */
  function TreeOf(line: string, cmd: Cmd): Tree {
    match cmd
    case Exec(args) => TExec(seq(|args|, i requires 0 <= i < |args| => Text(line, args[i])))
    case Redir(c, file, mode) => TRedir(TreeOf(line, c), Text(line, file), mode)
    case Pipe(l, r) => TPipe(TreeOf(line, l), TreeOf(line, r))
    case List(l, r) => TList(TreeOf(line, l), TreeOf(line, r))
    case Back(c) => TBack(TreeOf(line, c))
  }

  /** The text s stands in the line at position p. */
  predicate Stands(line: string, p: nat, s: string) {
    p + |s| <= |line| && line[p..p + |s|] == s
  }

  lemma StandsParts(line: string, p: nat, a: string, b: string)
    requires Stands(line, p, a + b)
    ensures Stands(line, p, a) && Stands(line, p + |a|, b)
  {
    var s := a + b;
    assert line[p..p + |a|] == line[p..p + |s|][..|a|] == a;
    assert line[p + |a|..p + |s|] == line[p..p + |s|][|a|..] == b;
  }

  lemma StandsChar(line: string, p: nat, s: string, i: nat)
    requires Stands(line, p, s) && i < |s|
    ensures p + i < |line| && line[p + i] == s[i]
  {
    assert line[p..p + |s|][i] == s[i];
  }

  /** The end of the line, or a closing parenthesis. */
  predicate Closed(line: string, p: nat) {
    p == |line| || (p < |line| && line[p] == ')')
  }

  // ---- single steps ----

  lemma SkipNone(line: string, p: nat)
    requires p <= |line| && (p < |line| ==> !Blank(line[p]))
    ensures Skip(line, p) == p
  {
  }

  lemma NoRedirs(line: string, p: nat, rs: seq<Redirection>)
    requires p <= |line| && (p < |line| ==> !Blank(line[p]) && line[p] != '<' && line[p] != '>')
    ensures RedirsAt(line, p, rs) == Found(rs, p)
  {
    SkipNone(line, p);
  }

  /** A symbol other than an arrow, followed by something that is not blank. */
  lemma SymToken(line: string, p: nat)
    requires p < |line| && Symbol(line[p]) && line[p] != '>' && (p + 1 < |line| ==> !Blank(line[p + 1]))
    ensures TokenAt(line, p) == Token(Sym(line[p]), p, p + 1, p + 1)
  {
    SkipNone(line, p);
    SkipNone(line, p + 1);
  }

  lemma {:induction false} WordEndIs(line: string, p: nat, e: nat)
    requires p <= e <= |line| && (forall i :: p <= i < e ==> Plain(line[i])) && (e < |line| ==> !Plain(line[e]))
    ensures WordEnd(line, p) == e
    decreases e - p
  {
    if p < e {
      WordEndIs(line, p + 1, e);
    }
  }

  lemma WordToken(line: string, p: nat, w: string)
    requires Stands(line, p, w) && PlainWord(w) && (p + |w| < |line| ==> !Plain(line[p + |w|]))
    ensures TokenAt(line, p) == Token(Word, p, p + |w|, Skip(line, p + |w|)) && Text(line, Range(p, p + |w|)) == w
  {
    forall i | p <= i < p + |w| ensures Plain(line[i]) {
      StandsChar(line, p, w, i - p);
    }
    SkipNone(line, p);
    WordEndIs(line, p, p + |w|);
  }

  // ---- arguments ----

  lemma ArgsEnd(line: string, p: nat, args: seq<Range>)
    requires Closed(line, p)
    ensures ArgsAt(line, p, args, []) == Ok(Exec(args), p)
  {
    SkipNone(line, p);
  }

  function Texts(line: string, args: seq<Range>): seq<string> {
    seq(|args|, i requires 0 <= i < |args| => Text(line, args[i]))
  }

  /** One word of the arguments is taken. */
  lemma OneArg(line: string, p: nat, w: string, args: seq<Range>)
    requires Stands(line, p, w) && PlainWord(w) && |args| + 1 < MAXARGS && (p + |w| < |line| ==> !Plain(line[p + |w|]))
    requires var next := Skip(line, p + |w|); next < |line| ==> line[next] != '<' && line[next] != '>'
    ensures ArgsAt(line, p, args, []) == ArgsAt(line, Skip(line, p + |w|), args + [Range(p, p + |w|)], [])
  {
    hide TokenAt;
    hide RedirsAt;
    WordToken(line, p, w);
    StandsChar(line, p, w, 0);
    SkipNone(line, p);
    NoRedirs(line, Skip(line, p + |w|), []);
  }

  /** After the first of several words comes a blank, and then the next word. */
  lemma JoinStep(line: string, p: nat, ws: seq<string>)
    requires |ws| > 1 && Stands(line, p, Join(ws)) && PlainWord(ws[1])
    ensures var q := p + |ws[0]|;
            && Stands(line, p, ws[0]) && q + 1 < |line| && line[q] == ' ' && Plain(line[q + 1])
            && Skip(line, q) == q + 1
            && Stands(line, q + 1, Join(ws[1..])) && |Join(ws)| == |ws[0]| + 1 + |Join(ws[1..])|
  {
    var w, rest := ws[0], ws[1..];
    assert Join(ws) == w + " " + Join(rest);
    StandsParts(line, p, w + " ", Join(rest));
    StandsParts(line, p, w, " ");
    StandsChar(line, p + |w|, " ", 0);
    JoinStart(rest);
    StandsChar(line, p + |w| + 1, Join(rest), 0);
    SkipNone(line, p + |w| + 1);
  }

  lemma {:induction false} ArgsParse(line: string, p: nat, ws: seq<string>, args: seq<Range>)
    requires Stands(line, p, Join(ws)) && Closed(line, p + |Join(ws)|) && |args| + |ws| < MAXARGS &&
      forall i :: 0 <= i < |ws| ==> PlainWord(ws[i])
    ensures var r := ArgsAt(line, p, args, []);
            r.Ok? && r.pos == p + |Join(ws)| && r.cmd.Exec? && Texts(line, r.cmd.args) == Texts(line, args) + ws
    decreases |ws|
  {
    hide ArgsAt;
    hide PlainWord;
    if ws == [] {
      ArgsEnd(line, p, args);
    } else {
      hide Join;
      var w, rest := ws[0], ws[1..];
      JoinEnds(ws);
      if |ws| > 1 {
        JoinStep(line, p, ws);
      } else {
        SkipNone(line, p + |w|);
      }
      var next, args' := Skip(line, p + |w|), args + [Range(p, p + |w|)];
      OneArg(line, p, w, args);
      ArgsParse(line, next, rest, args');
      TextsMore(line, args, p, w);
      assert ws == [w] + rest;
    }
  }

  lemma JoinEnds(ws: seq<string>)
    ensures |ws| == 1 ==> Join(ws) == ws[0] && Join(ws[1..]) == []
  {
  }

  lemma TextsMore(line: string, args: seq<Range>, p: nat, w: string)
    requires Stands(line, p, w)
    ensures Texts(line, args + [Range(p, p + |w|)]) == Texts(line, args) + [w]
  {
  }

  lemma JoinStart(ws: seq<string>)
    requires ws != [] && PlainWord(ws[0])
    ensures Join(ws) != [] && Plain(Join(ws)[0])
  {
  }

  // ---- commands ----

  /** A parenthesised line, up to its redirections. */
  lemma Block(line: string, p: nat, c: Cmd, k: nat)
    requires p + 1 <= k < |line| && line[p] == '(' && !Blank(line[p + 1]) && LineAt(line, p + 1) == Ok(c, k) &&
      line[k] == ')'
    requires k + 1 < |line| ==> !Blank(line[k + 1])
    ensures ExecAt(line, p) == (match RedirsAt(line, k + 1, []) case NoFile => Fail case Found(rs,
      e) => Ok(Wrap(c, rs), e))
  {
    hide LineAt;
    hide RedirsAt;
    SkipNone(line, p);
    SkipNone(line, k);
    SymToken(line, p);
    SymToken(line, k);
  }

  /** Nothing follows: a whole line. */
  lemma LineAlone(line: string, p: nat, c: Cmd, e: nat)
    requires p <= e <= |line| && PipeAt(line, p) == Ok(c, e) && Closed(line, e)
    ensures LineAt(line, p) == Ok(c, e)
  {
    hide PipeAt;
    SkipNone(line, e);
  }

  /** One command, and then an operator and another one. */
  lemma PipeTwo(line: string, p: nat, l: Cmd, k: nat, r: Cmd, e: nat)
    requires p <= k && k + 1 <= e <= |line| && ExecAt(line, p) == Ok(l, k) && line[k] == '|' &&
      (k + 1 < |line| ==> !Blank(line[k + 1])) && PipeAt(line, k + 1) == Ok(r, e)
    ensures PipeAt(line, p) == Ok(Pipe(l, r), e)
  {
    hide ExecAt;
    hide TokenAt;
    SkipNone(line, k);
    SymToken(line, k);
  }

  lemma ListTwo(line: string, p: nat, l: Cmd, k: nat, r: Cmd, e: nat)
    requires p <= k && k + 1 <= e <= |line| && ExecAt(line, p) == Ok(l, k) && line[k] == ';' &&
      (k + 1 < |line| ==> !Blank(line[k + 1])) && LineAt(line, k + 1) == Ok(r, e)
    ensures LineAt(line, p) == Ok(List(l, r), e)
  {
    hide ExecAt;
    hide TokenAt;
    SkipNone(line, k);
    SymToken(line, k);
    assert PipeAt(line, p) == Ok(l, k);
    assert BacksAt(line, k, l) == (l, k);
  }

  lemma BackOne(line: string, p: nat, d: Cmd, k: nat)
    requires p <= k < |line| && ExecAt(line, p) == Ok(d, k) && line[k] == '&' && Closed(line, k + 1)
    ensures LineAt(line, p) == Ok(Back(d), k + 1)
  {
    hide ExecAt;
    hide TokenAt;
    SkipNone(line, k);
    SkipNone(line, k + 1);
    SymToken(line, k);
    assert PipeAt(line, p) == Ok(d, k);
    assert BacksAt(line, k + 1, Back(d)) == (Back(d), k + 1);
    assert BacksAt(line, k, d) == (Back(d), k + 1);
  }

  lemma Alone(line: string, p: nat, c: Cmd, e: nat)
    requires p <= e <= |line| && ExecAt(line, p) == Ok(c, e) && Closed(line, e)
    ensures PipeAt(line, p) == Ok(c, e) && LineAt(line, p) == Ok(c, e)
  {
    hide ExecAt;
    SkipNone(line, e);
  }

  /** The first character of a printed command is not blank. */
  lemma PrintStart(t: Tree)
    requires Printable(t) && Print(t) != []
    ensures !Blank(Print(t)[0]) && (!t.TExec? ==> Print(t)[0] == '(')
  {
    match t {
      case TExec(args) => JoinStart(args);
      case _ =>
    }
  }

  /** Parsing a printed command in any context gives it back. */
  lemma {:induction false} PrintParses(line: string, p: nat, t: Tree) returns (c: Cmd)
    requires Printable(t) && Stands(line, p, Print(t)) && Closed(line, p + |Print(t)|)
    ensures LineAt(line, p) == Ok(c, p + |Print(t)|) && TreeOf(line, c) == t
    decreases t, 1
  {
    match t {
      case TExec(args) => c := ExecParses(line, p, args);
      case TRedir(d, file, mode) => c := RedirParses(line, p, t);
      case TPipe(l, r) => c := PipeParses(line, p, t);
      case TList(l, r) => c := ListParses(line, p, t);
      case TBack(d) => c := BackParses(line, p, t);
    }
  }

  lemma ExecParses(line: string, p: nat, ws: seq<string>) returns (c: Cmd)
    requires Printable(TExec(ws)) && Stands(line, p, Join(ws)) && Closed(line, p + |Join(ws)|)
    ensures LineAt(line, p) == Ok(c, p + |Join(ws)|) && TreeOf(line, c) == TExec(ws)
  {
    hide ArgsAt;
    hide RedirsAt;
    hide LineAt;
    hide PipeAt;
    if ws != [] {
      JoinStart(ws);
      StandsChar(line, p, Join(ws), 0);
    }
    SkipNone(line, p);
    NoRedirs(line, p, []);
    ArgsParse(line, p, ws, []);
    c := ArgsAt(line, p, [], []).cmd;
    assert ExecAt(line, p) == Ok(c, p + |Join(ws)|);
    Alone(line, p, c, p + |Join(ws)|);
    assert Texts(line, []) == [];
    assert TreeOf(line, c) == TExec(Texts(line, c.args));
  }

  /** A printed command in parentheses, followed by something that is not blank. */
  lemma ParenParses(line: string, p: nat, t: Tree) returns (c: Cmd, k: nat)
    requires Printable(t) && Stands(line, p, Paren(Print(t))) && (p + |Paren(Print(t))| < |line| ==>
      !Blank(line[p + |Paren(Print(t))|]))
    ensures k == p + 1 + |Print(t)| && k < |line| && TreeOf(line, c) == t
    ensures ExecAt(line, p) == (match RedirsAt(line, k + 1, []) case NoFile => Fail case Found(rs,
      e) => Ok(Wrap(c, rs), e))
    decreases t, 2
  {
    hide LineAt;
    hide ExecAt;
    hide RedirsAt;
    hide Stands;
    hide TreeOf;
    var s := Print(t);
    assert Paren(s) == "(" + (s + ")");
    StandsParts(line, p, "(", s + ")");
    StandsParts(line, p + 1, s, ")");
    StandsChar(line, p, "(", 0);
    k := p + 1 + |s|;
    StandsChar(line, k, ")", 0);
    if s != [] {
      PrintStart(t);
      StandsChar(line, p + 1, s, 0);
    }
    c := PrintParses(line, p + 1, t);
    Block(line, p, c, k);
  }

  /** The same with no redirection after it. */
  lemma AtomParses(line: string, p: nat, t: Tree) returns (c: Cmd)
    requires Printable(t) && Stands(line, p, Paren(Print(t)))
    requires var e := p + |Paren(Print(t))|; e < |line| ==> !Blank(line[e]) && line[e] != '<' && line[e] != '>'
    ensures ExecAt(line, p) == Ok(c, p + |Paren(Print(t))|) && TreeOf(line, c) == t
    decreases t, 3
  {
    hide ExecAt;
    hide RedirsAt;
    var k;
    c, k := ParenParses(line, p, t);
    NoRedirs(line, k + 1, []);
  }

  /** The text of a binary command falls into its parts. */
  lemma TwoParens(line: string, p: nat, a: string, op: string, b: string)
    requires Stands(line, p, Paren(a) + op + Paren(b)) && |op| == 1
    ensures var k := p + |Paren(a)|;
            Stands(line, p, Paren(a)) && k < |line| && line[k] == op[0] && Stands(line, k + 1, Paren(b)) &&
              line[k + 1] == '('
  {
    assert Paren(a) + op + Paren(b) == Paren(a) + (op + Paren(b));
    StandsParts(line, p, Paren(a), op + Paren(b));
    StandsParts(line, p + |Paren(a)|, op, Paren(b));
    StandsChar(line, p + |Paren(a)|, op, 0);
    StandsChar(line, p + |Paren(a)| + 1, Paren(b), 0);
  }

  lemma PipeParses(line: string, p: nat, t: Tree) returns (c: Cmd)
    requires t.TPipe? && Printable(t) && Stands(line, p, Print(t)) && Closed(line, p + |Print(t)|)
    ensures LineAt(line, p) == Ok(c, p + |Print(t)|) && TreeOf(line, c) == t
    decreases t, 0
  {
    hide ExecAt;
    hide PipeAt;
    hide LineAt;
    hide Stands;
    var a, b := Print(t.left), Print(t.right);
    var k, e := p + |Paren(a)|, p + |Print(t)|;
    TwoParens(line, p, a, "|", b);
    var l := AtomParses(line, p, t.left);
    var r := AtomParses(line, k + 1, t.right);
    Alone(line, k + 1, r, e);
    PipeTwo(line, p, l, k, r, e);
    c := Pipe(l, r);
    LineAlone(line, p, c, e);
  }

  lemma ListParses(line: string, p: nat, t: Tree) returns (c: Cmd)
    requires t.TList? && Printable(t) && Stands(line, p, Print(t)) && Closed(line, p + |Print(t)|)
    ensures LineAt(line, p) == Ok(c, p + |Print(t)|) && TreeOf(line, c) == t
    decreases t, 0
  {
    hide ExecAt;
    hide PipeAt;
    hide LineAt;
    hide Stands;
    var a, b := Print(t.left), Print(t.right);
    var k, e := p + |Paren(a)|, p + |Print(t)|;
    TwoParens(line, p, a, ";", b);
    var l := AtomParses(line, p, t.left);
    var r := AtomParses(line, k + 1, t.right);
    Alone(line, k + 1, r, e);
    ListTwo(line, p, l, k, r, e);
    c := List(l, r);
  }

  lemma BackParses(line: string, p: nat, t: Tree) returns (c: Cmd)
    requires t.TBack? && Printable(t) && Stands(line, p, Print(t)) && Closed(line, p + |Print(t)|)
    ensures LineAt(line, p) == Ok(c, p + |Print(t)|) && TreeOf(line, c) == t
    decreases t, 0
  {
    hide ExecAt;
    hide LineAt;
    hide Stands;
    var a := Print(t.cmd);
    var k := p + |Paren(a)|;
    StandsParts(line, p, Paren(a), "&");
    StandsChar(line, k, "&", 0);
    var d := AtomParses(line, p, t.cmd);
    BackOne(line, p, d, k);
    c := Back(d);
  }

  lemma ArrowToken(line: string, p: nat, mode: Mode)
    requires var f := p + |Arrow(mode)|; Stands(line, p, Arrow(mode)) && f < |line| && Plain(line[f])
    ensures Sees(line, p, {'<', '>'}) && TokenAt(line, p).next == p + |Arrow(mode)| &&
      ModeOf(TokenAt(line, p).kind) == mode
  {
    StandsChar(line, p, Arrow(mode), 0);
    if mode.Extend? {
      StandsChar(line, p, Arrow(mode), 1);
    }
    SkipNone(line, p);
    SkipNone(line, p + |Arrow(mode)|);
  }

  /** An arrow and a file name. */
  lemma OneRedir(line: string, p: nat, file: string, mode: Mode)
    requires Stands(line, p, Arrow(mode) + file) && PlainWord(file) && Closed(line, p + |Arrow(mode) + file|)
    ensures var f := p + |Arrow(mode)|; var e := f + |file|;
            RedirsAt(line, p, []) == Found([Redirection(Range(f, e), mode)], e) && Text(line, Range(f, e)) == file
  {
    hide TokenAt;
    hide Stands;
    hide Sees;
    hide Text;
    var f := p + |Arrow(mode)|;
    StandsParts(line, p, Arrow(mode), file);
    StandsChar(line, f, file, 0);
    ArrowToken(line, p, mode);
    WordToken(line, f, file);
    SkipNone(line, f + |file|);
    NoRedirs(line, f + |file|, [Redirection(Range(f, f + |file|), mode)]);
    assert [] + [Redirection(Range(f, f + |file|), mode)] == [Redirection(Range(f, f + |file|), mode)];
  }

  lemma RedirParses(line: string, p: nat, t: Tree) returns (c: Cmd)
    requires t.TRedir? && Printable(t) && Stands(line, p, Print(t)) && Closed(line, p + |Print(t)|)
    ensures LineAt(line, p) == Ok(c, p + |Print(t)|) && TreeOf(line, c) == t
    decreases t, 0
  {
    hide ExecAt;
    hide RedirsAt;
    hide LineAt;
    hide Stands;
    hide Text;
    var a, tail := Print(t.cmd), Arrow(t.mode) + t.file;
    assert Print(t) == Paren(a) + tail;
    StandsParts(line, p, Paren(a), tail);
    StandsChar(line, p + |Paren(a)|, tail, 0);
    var d, k := ParenParses(line, p, t.cmd);
    OneRedir(line, k + 1, t.file, t.mode);
    var f := k + 1 + |Arrow(t.mode)|;
    var rd := Redirection(Range(f, f + |t.file|), t.mode);
    c := Redir(d, rd.file, rd.mode);
    assert [rd][..0] == [];
    assert Wrap(d, [rd]) == c;
    Alone(line, p, c, p + |Print(t)|);
  }

  /** Parsing a printed command returns that command. */
  lemma RoundTrip(t: Tree)
    requires Printable(t)
    ensures Parse(Print(t)).Ok? && TreeOf(Print(t), Parse(Print(t)).cmd) == t
  {
    var line := Print(t);
    assert line[0..0 + |line|] == line;
    var c := PrintParses(line, 0, t);
  }
}
