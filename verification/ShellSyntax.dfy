/**
 The shell's grammar as functions on positions in a line.
 */
module ShellSyntax {

  const MAXARGS := 10

  predicate Blank(c: char) {
    c == ' ' || c == '\t' || c == '\r' || c == '\n' || c == '\U{B}'
  }

  predicate Symbol(c: char) {
    c == '<' || c == '|' || c == '>' || c == '&' || c == ';' || c == '(' || c == ')'
  }

  predicate Plain(c: char) {
    !Blank(c) && !Symbol(c)
  }

  /** Where the blanks from p on end. */
  function Skip(line: string, p: nat): (r: nat)
    requires p <= |line|
    ensures p <= r <= |line| && (r < |line| ==> !Blank(line[r])) && forall i :: p <= i < r ==> Blank(line[i])
    decreases |line| - p
  {
    if p < |line| && Blank(line[p]) then Skip(line, p + 1) else p
  }

  /** Where the word at p ends. */
  function WordEnd(line: string, p: nat): (r: nat)
    requires p <= |line|
    ensures p <= r <= |line| && (r < |line| ==> !Plain(line[r])) && forall i :: p <= i < r ==> Plain(line[i])
    decreases |line| - p
  {
    if p < |line| && Plain(line[p]) then WordEnd(line, p + 1) else p
  }

  datatype Kind = End | Word | Append | Sym(c: char)

  /** A token: what it is, where it starts and ends, and where the next one starts. */
  datatype Token = Token(kind: Kind, start: nat, end: nat, next: nat)

  function TokenAt(line: string, p: nat): (t: Token)
    requires p <= |line|
    ensures p <= t.start <= t.end <= t.next <= |line| && (t.kind.End? <==> t.start == |line|) &&
      (!t.kind.End? ==> t.start < t.end)
    ensures t.kind.Word? ==> forall i :: t.start <= i < t.end ==> Plain(line[i])
    ensures t.kind.Word? ==> t.end == |line| || !Plain(line[t.end])
  {
    var s := Skip(line, p);
    if s == |line| then Token(End, s, s, s)
    else if line[s] == '>' && s + 1 < |line| && line[s + 1] == '>' then Token(Append, s, s + 2, Skip(line, s + 2))
    else if Symbol(line[s]) then Token(Sym(line[s]), s, s + 1, Skip(line, s + 1))
    else Token(Word, s, WordEnd(line, s), Skip(line, WordEnd(line, s)))
  }

  /** Whether the next token starts with one of the given characters. */
  predicate Sees(line: string, p: nat, toks: set<char>)
    requires p <= |line|
  {
    var s := Skip(line, p);
    s < |line| && line[s] in toks
  }

  // ---- commands ----

  /** A counted string: from start up to end. */
  datatype Range = Range(start: nat, end: nat)

  datatype Mode = Input | Truncate | Extend

  datatype Cmd =
    | Exec(args: seq<Range>)
    | Redir(cmd: Cmd, file: Range, mode: Mode)
    | Pipe(left: Cmd, right: Cmd)
    | List(left: Cmd, right: Cmd)
    | Back(cmd: Cmd)

  datatype Redirection = Redirection(file: Range, mode: Mode)

  /** Redirections wrap a command from the inside out. */
  function Wrap(cmd: Cmd, rs: seq<Redirection>): Cmd {
    if rs == [] then cmd else Redir(Wrap(cmd, rs[..|rs| - 1]), rs[|rs| - 1].file, rs[|rs| - 1].mode)
  }

  datatype Parsed = Ok(cmd: Cmd, pos: nat) | Fail

  datatype Redirs = Found(rs: seq<Redirection>, pos: nat) | NoFile

  function ModeOf(k: Kind): Mode {
    if k == Sym('<') then Input else if k.Append? then Extend else Truncate
  }

  /** parseredirs(): the redirections from p on, after those already found. */
  function RedirsAt(line: string, p: nat, rs: seq<Redirection>): (r: Redirs)
    requires p <= |line|
    ensures r.Found? ==> p <= r.pos <= |line|
    decreases |line| - p
  {
    if Sees(line, p, {'<', '>'}) then
      var t := TokenAt(line, p);
      var f := TokenAt(line, t.next);
      if f.kind.Word? then RedirsAt(line, f.next, rs + [Redirection(Range(f.start, f.end), ModeOf(t.kind))]) else NoFile
    else Found(rs, Skip(line, p))
  }

  /** The loop of parseexec(). */
  function ArgsAt(line: string, p: nat, args: seq<Range>, rs: seq<Redirection>): (r: Parsed)
    requires p <= |line|
    ensures r.Ok? ==> p <= r.pos <= |line|
    decreases |line| - p
  {
    if Sees(line, p, {'|', ')', '&', ';'}) then Ok(Wrap(Exec(args), rs), Skip(line, p))
    else
      var t := TokenAt(line, p);
      if t.kind.End? then Ok(Wrap(Exec(args), rs), t.next)
      else if !t.kind.Word? || |args| + 1 >= MAXARGS then Fail
      else
        match RedirsAt(line, t.next, rs)
        case NoFile => Fail
        case Found(rs', pos) => ArgsAt(line, pos, args + [Range(t.start, t.end)], rs')
  }

  function ExecAt(line: string, p: nat): (r: Parsed)
    requires p <= |line|
    ensures r.Ok? ==> p <= r.pos <= |line|
    decreases |line| - p, 1
  {
    if Sees(line, p, {'('}) then BlockAt(line, p)
    else
      match RedirsAt(line, p, [])
      case NoFile => Fail
      case Found(rs, pos) => ArgsAt(line, pos, [], rs)
  }

  function BlockAt(line: string, p: nat): (r: Parsed)
    requires p <= |line| && Sees(line, p, {'('})
    ensures r.Ok? ==> p <= r.pos <= |line|
    decreases |line| - p, 0
  {
    match LineAt(line, TokenAt(line, p).next)
    case Fail => Fail
    case Ok(cmd, pos) =>
      if !Sees(line, pos, {')'}) then Fail
      else
        match RedirsAt(line, TokenAt(line, pos).next, [])
        case NoFile => Fail
        case Found(rs, end) => Ok(Wrap(cmd, rs), end)
  }

  function PipeAt(line: string, p: nat): (r: Parsed)
    requires p <= |line|
    ensures r.Ok? ==> p <= r.pos <= |line|
    decreases |line| - p, 2
  {
    match ExecAt(line, p)
    case Fail => Fail
    case Ok(cmd, pos) =>
      if !Sees(line, pos, {'|'}) then Ok(cmd, Skip(line, pos))
      else
        match PipeAt(line, TokenAt(line, pos).next)
        case Fail => Fail
        case Ok(right, end) => Ok(Pipe(cmd, right), end)
  }

  /** The loop of parseline() over '&'. */
  function BacksAt(line: string, p: nat, cmd: Cmd): (r: (Cmd, nat))
    requires p <= |line|
    ensures p <= r.1 <= |line|
    decreases |line| - p
  {
    if Sees(line, p, {'&'}) then BacksAt(line, TokenAt(line, p).next, Back(cmd)) else (cmd, Skip(line, p))
  }

  function LineAt(line: string, p: nat): (r: Parsed)
    requires p <= |line|
    ensures r.Ok? ==> p <= r.pos <= |line|
    decreases |line| - p, 3
  {
    match PipeAt(line, p)
    case Fail => Fail
    case Ok(first, pos) =>
      var (cmd, after) := BacksAt(line, pos, first);
      if !Sees(line, after, {';'}) then Ok(cmd, Skip(line, after))
      else
        match LineAt(line, TokenAt(line, after).next)
        case Fail => Fail
        case Ok(right, end) => Ok(List(cmd, right), end)
  }

  /** parsecmd() up to nulterminate(): the whole line must be used. */
  function Parse(line: string): Parsed {
    match LineAt(line, 0)
    case Fail => Fail
    case Ok(cmd, pos) => if Skip(line, pos) == |line| then Ok(cmd, |line|) else Fail
  }
}
