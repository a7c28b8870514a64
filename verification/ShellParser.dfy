/**
 The shell's recursive descent parser, and nulterminate(), which cuts the line into strings in place.
 */
module ShellParser {
  import opened ShellSyntax

  // ---- the parser ----

  method SkipBlanks(line: string, p: nat) returns (s: nat)
    requires p <= |line|
    ensures s == Skip(line, p)
  {
    s := p;
    while s < |line| && Blank(line[s])
      invariant p <= s <= |line| && Skip(line, p) == Skip(line, s)
    {
      s := s + 1;
    }
  }

  /** gettoken() */
  method GetToken(line: string, p: nat) returns (t: Token)
    requires p <= |line|
    ensures t == TokenAt(line, p)
  {
    var s := SkipBlanks(line, p);
    var q := s;
    var kind := End;
    if s < |line| {
      if line[s] == '|' || line[s] == '(' || line[s] == ')' || line[s] == ';' || line[s] == '&' || line[s] == '<' {
        kind := Sym(line[s]);
        s := s + 1;
      } else if line[s] == '>' {
        kind := Sym('>');
        s := s + 1;
        if s < |line| && line[s] == '>' {
          kind := Append;
          s := s + 1;
        }
      } else {
        kind := Word;
        while s < |line| && !Blank(line[s]) && !Symbol(line[s])
          invariant q <= s <= |line| && WordEnd(line, q) == WordEnd(line, s)
        {
          s := s + 1;
        }
      }
    }
    var eq := s;
    s := SkipBlanks(line, s);
    t := Token(kind, q, eq, s);
  }

  /** peek(): it also moves the cursor past blanks. */
  method Peek(line: string, p: nat, toks: set<char>) returns (r: bool, s: nat)
    requires p <= |line|
    ensures s == Skip(line, p) && (r <==> Sees(line, p, toks))
  {
    s := SkipBlanks(line, p);
    r := s < |line| && line[s] in toks;
  }

  /** After peek() the same token follows as before. */
  lemma AfterPeek(line: string, p: nat)
    requires p <= |line|
    ensures Skip(line, Skip(line, p)) == Skip(line, p) && TokenAt(line, Skip(line, p)) == TokenAt(line, p)
  {
  }

  /** parseredirs(): the redirections that wrap the command, the last one outermost. */
  method ParseRedirs(line: string, p: nat, rs: seq<Redirection>) returns (r: Redirs)
    requires p <= |line|
    ensures r == RedirsAt(line, p, rs)
  {
    var found, s := rs, p;
    while true
      invariant p <= s <= |line| && RedirsAt(line, p, rs) == RedirsAt(line, s, found)
      decreases |line| - s
    {
      AfterPeek(line, s);
      var more, at := Peek(line, s, {'<', '>'});
      if !more {
        return Found(found, at);
      }
      var tok := GetToken(line, at);
      var f := GetToken(line, tok.next);
      if !f.kind.Word? {
        return NoFile;
      }
      found := found + [Redirection(Range(f.start, f.end), ModeOf(tok.kind))];
      s := f.next;
    }
  }

  /** parseline() */
  method ParseLine(line: string, p: nat) returns (r: Parsed)
    requires p <= |line|
    ensures r == LineAt(line, p)
    decreases |line| - p, 3
  {
    r := ParsePipe(line, p);
    if r.Fail? {
      return;
    }
    var cmd, s := r.cmd, r.pos;
    ghost var first, pos := cmd, s;
    while true
      invariant p <= s <= |line| && BacksAt(line, pos, first) == BacksAt(line, s, cmd)
      decreases |line| - s
    {
      var more;
      AfterPeek(line, s);
      more, s := Peek(line, s, {'&'});
      if !more {
        break;
      }
      var t := GetToken(line, s);
      s := t.next;
      cmd := Back(cmd);
    }
    var more;
    AfterPeek(line, s);
    more, s := Peek(line, s, {';'});
    if !more {
      return Ok(cmd, s);
    }
    var t := GetToken(line, s);
    r := ParseLine(line, t.next);
    if r.Ok? {
      r := Ok(List(cmd, r.cmd), r.pos);
    }
  }

  /** parsepipe() */
  method ParsePipe(line: string, p: nat) returns (r: Parsed)
    requires p <= |line|
    ensures r == PipeAt(line, p)
    decreases |line| - p, 2
  {
    r := ParseExec(line, p);
    if r.Fail? {
      return;
    }
    var cmd := r.cmd;
    AfterPeek(line, r.pos);
    var more, s := Peek(line, r.pos, {'|'});
    if !more {
      return Ok(cmd, s);
    }
    var t := GetToken(line, s);
    r := ParsePipe(line, t.next);
    if r.Ok? {
      r := Ok(Pipe(cmd, r.cmd), r.pos);
    }
  }

  /** parseblock() */
  method ParseBlock(line: string, p: nat) returns (r: Parsed)
    requires p <= |line|
    ensures r == if Sees(line, p, {'('}) then BlockAt(line, p) else Fail
    decreases |line| - p, 0
  {
    AfterPeek(line, p);
    var more, s := Peek(line, p, {'('});
    if !more {
      return Fail;
    }
    var t := GetToken(line, s);
    r := ParseLine(line, t.next);
    if r.Fail? {
      return;
    }
    var cmd := r.cmd;
    AfterPeek(line, r.pos);
    more, s := Peek(line, r.pos, {')'});
    if !more {
      return Fail;
    }
    t := GetToken(line, s);
    var found := ParseRedirs(line, t.next, []);
    r := if found.Found? then Ok(Wrap(cmd, found.rs), found.pos) else Fail;
  }

  /** parseexec() */
  method ParseExec(line: string, p: nat) returns (r: Parsed)
    requires p <= |line|
    ensures r == ExecAt(line, p)
    decreases |line| - p, 1
  {
    AfterPeek(line, p);
    var block, s := Peek(line, p, {'('});
    if block {
      r := ParseBlock(line, p);
      return;
    }
    var found := ParseRedirs(line, p, []);
    if found.NoFile? {
      return Fail;
    }
    var args, rs := [], found.rs;
    s := found.pos;
    ghost var pos := s;
    while true
      invariant p <= s <= |line| && |args| < MAXARGS && ArgsAt(line, pos, [], found.rs) == ArgsAt(line, s, args, rs)
      decreases |line| - s
    {
      AfterPeek(line, s);
      var stop, at := Peek(line, s, {'|', ')', '&', ';'});
      if stop {
        return Ok(Wrap(Exec(args), rs), at);
      }
      var t := GetToken(line, at);
      if t.kind.End? {
        return Ok(Wrap(Exec(args), rs), t.next);
      }
      if !t.kind.Word? {
        return Fail;
      }
      ghost var before := args;
      args := args + [Range(t.start, t.end)];
      if |args| >= MAXARGS {
        return Fail;
      }
      var more := ParseRedirs(line, t.next, rs);
      if more.NoFile? {
        return Fail;
      }
      rs, s := more.rs, more.pos;
    }
  }

  // ---- the tokens of a command ----

  /** A range is a whole word of the line. */
  predicate IsWord(line: string, w: Range) {
    && w.start < w.end <= |line| && (forall i :: w.start <= i < w.end ==> Plain(line[i]))
    && (w.end < |line| ==> !Plain(line[w.end]))
  }

  /** The strings of a command. */
  function Words(cmd: Cmd): seq<Range> {
    match cmd
    case Exec(args) => args
    case Redir(c, file, _) => Words(c) + [file]
    case Pipe(l, r) => Words(l) + Words(r)
    case List(l, r) => Words(l) + Words(r)
    case Back(c) => Words(c)
  }

  ghost predicate AllWords(line: string, ws: seq<Range>)
  {
    forall i :: 0 <= i < |ws| ==> IsWord(line, ws[i])
  }

  ghost predicate RedirWords(line: string, rs: seq<Redirection>)
  {
    forall i :: 0 <= i < |rs| ==> IsWord(line, rs[i].file)
  }

  lemma {:induction false} WrapWords(line: string, cmd: Cmd, rs: seq<Redirection>)
    requires AllWords(line, Words(cmd)) && RedirWords(line, rs)
    ensures AllWords(line, Words(Wrap(cmd, rs)))
  {
    if rs != [] {
      WrapWords(line, cmd, rs[..|rs| - 1]);
    }
  }

  lemma {:induction false} RedirsWords(line: string, p: nat, rs: seq<Redirection>)
    requires p <= |line| && RedirWords(line, rs)
    ensures RedirsAt(line, p, rs).Found? ==> RedirWords(line, RedirsAt(line, p, rs).rs)
    decreases |line| - p
  {
    if Sees(line, p, {'<', '>'}) {
      var t := TokenAt(line, p);
      var f := TokenAt(line, t.next);
      if f.kind.Word? {
        RedirsWords(line, f.next, rs + [Redirection(Range(f.start, f.end), ModeOf(t.kind))]);
      }
    }
  }

  lemma {:induction false} ArgsWords(line: string, p: nat, args: seq<Range>, rs: seq<Redirection>)
    requires p <= |line| && AllWords(line, args) && RedirWords(line, rs)
    ensures ArgsAt(line, p, args, rs).Ok? ==> AllWords(line, Words(ArgsAt(line, p, args, rs).cmd))
    decreases |line| - p
  {
    WrapWords(line, Exec(args), rs);
    var t := TokenAt(line, p);
    if !Sees(line, p, {'|', ')', '&', ';'}) && t.kind.Word? && |args| + 1 < MAXARGS {
      RedirsWords(line, t.next, rs);
      var more := RedirsAt(line, t.next, rs);
      if more.Found? {
        ArgsWords(line, more.pos, args + [Range(t.start, t.end)], more.rs);
      }
    }
  }

  lemma {:induction false} BacksWords(line: string, p: nat, cmd: Cmd)
    requires p <= |line| && AllWords(line, Words(cmd))
    ensures AllWords(line, Words(BacksAt(line, p, cmd).0))
    decreases |line| - p
  {
    if Sees(line, p, {'&'}) {
      BacksWords(line, TokenAt(line, p).next, Back(cmd));
    }
  }

  /** Every string of a parsed command is a whole word of the line. */
  lemma {:induction false} LineWords(line: string, p: nat)
    requires p <= |line|
    ensures LineAt(line, p).Ok? ==> AllWords(line, Words(LineAt(line, p).cmd))
    decreases |line| - p, 3
  {
    PipeWords(line, p);
    var first := PipeAt(line, p);
    if first.Ok? {
      BacksWords(line, first.pos, first.cmd);
      var after := BacksAt(line, first.pos, first.cmd).1;
      if Sees(line, after, {';'}) {
        LineWords(line, TokenAt(line, after).next);
      }
    }
  }

  lemma {:induction false} PipeWords(line: string, p: nat)
    requires p <= |line|
    ensures PipeAt(line, p).Ok? ==> AllWords(line, Words(PipeAt(line, p).cmd))
    decreases |line| - p, 2
  {
    ExecWords(line, p);
    var first := ExecAt(line, p);
    if first.Ok? && Sees(line, first.pos, {'|'}) {
      PipeWords(line, TokenAt(line, first.pos).next);
    }
  }

  lemma {:induction false} ExecWords(line: string, p: nat)
    requires p <= |line|
    ensures ExecAt(line, p).Ok? ==> AllWords(line, Words(ExecAt(line, p).cmd))
    decreases |line| - p, 1
  {
    if Sees(line, p, {'('}) {
      var t := TokenAt(line, p);
      LineWords(line, t.next);
      var inner := LineAt(line, t.next);
      if inner.Ok? && Sees(line, inner.pos, {')'}) {
        RedirsWords(line, TokenAt(line, inner.pos).next, []);
        var found := RedirsAt(line, TokenAt(line, inner.pos).next, []);
        if found.Found? {
          WrapWords(line, inner.cmd, found.rs);
        }
      }
    } else {
      RedirsWords(line, p, []);
      var found := RedirsAt(line, p, []);
      if found.Found? {
        ArgsWords(line, found.pos, [], found.rs);
      }
    }
  }

  // ---- nulterminate ----

  const NUL := '\0'

  /** A NUL at the end of each string, one after the other. */
  function Cut(b: string, ws: seq<Range>): (r: string)
    ensures |r| == |b|
    decreases |ws|
  {
    if ws == [] then b
    else Cut(if ws[0].end < |b| then b[ws[0].end := NUL] else b, ws[1..])
  }

  lemma {:induction false} CutAt(b: string, ws: seq<Range>, k: nat)
    requires k < |b|
    ensures Cut(b, ws)[k] == if exists i :: 0 <= i < |ws| && ws[i].end == k then NUL else b[k]
    decreases |ws|
  {
    if ws != [] {
      var b' := if ws[0].end < |b| then b[ws[0].end := NUL] else b;
      CutAt(b', ws[1..], k);
      if i :| 0 <= i < |ws| && ws[i].end == k {
        assert i > 0 ==> ws[1..][i - 1].end == k;
      }
      if i :| 0 <= i < |ws[1..]| && ws[1..][i].end == k {
        assert ws[i + 1].end == k;
      }
    }
  }

  lemma {:induction false} CutTwice(b: string, xs: seq<Range>, ys: seq<Range>)
    ensures Cut(b, xs + ys) == Cut(Cut(b, xs), ys)
    decreases |xs|
  {
    if xs == [] {
      assert xs + ys == ys;
    } else {
      assert (xs + ys)[1..] == xs[1..] + ys;
      CutTwice(if xs[0].end < |b| then b[xs[0].end := NUL] else b, xs[1..], ys);
    }
  }

  /** nulterminate(), on the buffer that holds the line. */
  method Nulterminate(cmd: Cmd, buf: array<char>)
    requires Within(Words(cmd), buf.Length)
    modifies buf
    ensures buf[..] == Cut(old(buf[..]), Words(cmd))
    decreases cmd
  {
    match cmd {
      case Exec(args) =>
        assert Within(args, buf.Length);
        var i := 0;
        while i < |args|
          invariant 0 <= i <= |args| && Cut(buf[..], args[i..]) == Cut(old(buf[..]), args)
        {
          assert args[i..][0] == args[i] && args[i..][1..] == args[i + 1..];
          ghost var b := buf[..];
          buf[args[i].end] := NUL;
          assert buf[..] == b[args[i].end := NUL];
          i := i + 1;
        }
      case Redir(c, file, mode) =>
        TwoParts(Words(cmd), Words(c), [file], buf.Length);
        assert [file][0] == file;
        ghost var b := buf[..];
        Nulterminate(c, buf);
        ghost var b1 := buf[..];
        buf[file.end] := NUL;
        CutTwice(b, Words(c), [file]);
        assert Cut(b1, [file]) == b1[file.end := NUL];
      case Pipe(l, r) =>
        TwoParts(Words(cmd), Words(l), Words(r), buf.Length);
        ghost var b := buf[..];
        Nulterminate(l, buf);
        Nulterminate(r, buf);
        CutTwice(b, Words(l), Words(r));
      case List(l, r) =>
        TwoParts(Words(cmd), Words(l), Words(r), buf.Length);
        ghost var b := buf[..];
        Nulterminate(l, buf);
        Nulterminate(r, buf);
        CutTwice(b, Words(l), Words(r));
      case Back(c) =>
        Nulterminate(c, buf);
    }
  }

  /** Every string ends inside the buffer. */
  ghost predicate Within(ws: seq<Range>, n: nat)
  {
    forall i :: 0 <= i < |ws| ==> ws[i].end < n
  }

  lemma TwoParts(ws: seq<Range>, l: seq<Range>, r: seq<Range>, n: nat)
    requires ws == l + r && Within(ws, n)
    ensures Within(l, n) && Within(r, n)
  {
    forall i | 0 <= i < |l| ensures l[i].end < n {
      assert ws[i] == l[i];
    }
    forall i | 0 <= i < |r| ensures r[i].end < n {
      assert ws[|l| + i] == r[i];
    }
  }

  /** The C string at position q: up to the first NUL. */
  function StringAt(b: string, q: nat): string
    requires q <= |b|
    decreases |b| - q
  {
    if q == |b| || b[q] == NUL then [] else [b[q]] + StringAt(b, q + 1)
  }

  lemma {:induction false} StringIs(b: string, q: nat, e: nat)
    requires q <= e < |b| && b[e] == NUL && forall i :: q <= i < e ==> b[i] != NUL
    ensures StringAt(b, q) == b[q..e]
    decreases e - q
  {
    if q < e {
      StringIs(b, q + 1, e);
    }
  }

  /**
   After nulterminate() every string of the command reads as exactly its token: a NUL goes where some token
   ends, and there a token never goes on.
   */
  lemma TokensSurvive(line: string, ws: seq<Range>, j: nat)
    requires AllWords(line, ws) && j < |ws| && NUL !in line
    ensures ws[j].start <= |line| && ws[j].start < ws[j].end <= |line|
    ensures StringAt(Cut(line + [NUL], ws), ws[j].start) == line[ws[j].start..ws[j].end]
  {
    var b := line + [NUL];
    var c := Cut(b, ws);
    var w := ws[j];
    assert IsWord(line, w);
    forall k | w.start <= k < w.end ensures c[k] == line[k] {
      CutAt(b, ws, k);
      assert forall i :: 0 <= i < |ws| ==> IsWord(line, ws[i]) && ws[i].end != k;
    }
    CutAt(b, ws, w.end);
    assert forall k :: w.start <= k < w.end ==> c[k] != NUL;
    StringIs(c, w.start, w.end);
  }

  /** parsecmd(): it ends on every line; on success each string of the command reads as its token. */
  method ParseCmd(buf: array<char>, line: string) returns (r: Parsed)
    requires buf.Length == |line| + 1 && buf[..] == line + [NUL] && NUL !in line
    modifies buf
    ensures r == Parse(line)
    ensures r.Fail? ==> buf[..] == old(buf[..])
    ensures r.Ok? ==> buf[..] == Cut(line + [NUL], Words(r.cmd)) && AllWords(line, Words(r.cmd))
    ensures r.Ok? ==> forall j :: 0 <= j < |Words(r.cmd)| ==>
              Words(r.cmd)[j].start < Words(r.cmd)[j].end <= |line| &&
                StringAt(buf[..], Words(r.cmd)[j].start) == line[Words(r.cmd)[j].start..Words(r.cmd)[j].end]
  {
    hide Cut;
    hide StringAt;
    r := ParseLine(line, 0);
    if r.Fail? {
      return;
    }
    LineWords(line, 0);
    var s := SkipBlanks(line, r.pos);
    if s != |line| {
      return Fail;
    }
    r := Ok(r.cmd, s);
    forall i | 0 <= i < |Words(r.cmd)| ensures Words(r.cmd)[i].end < buf.Length {
      assert IsWord(line, Words(r.cmd)[i]);
    }
    Nulterminate(r.cmd, buf);
    forall j | 0 <= j < |Words(r.cmd)|
      ensures Words(r.cmd)[j].start < Words(r.cmd)[j].end <= |line| &&
        StringAt(buf[..], Words(r.cmd)[j].start) == line[Words(r.cmd)[j].start..Words(r.cmd)[j].end]
    {
      TokensSurvive(line, Words(r.cmd), j);
    }
  }
}
