/**
 File names as the kernel compares and stores them, and path elements.
 */
module Names {

  const DIRSIZ := 14

  /** The characters strncmp(·, ·, n) looks at: at most n, stopping at a NUL. */
  function Visible(s: string, n: nat): (r: string)
    ensures |r| <= n && '\0' !in r
  {
    if n == 0 || s == [] || s[0] == '\0' then [] else [s[0]] + Visible(s[1..], n - 1)
  }

  /** Reading up to n characters stays inside the buffer. */
  predicate Bounded(s: string, n: nat) {
    |s| >= n || '\0' in s
  }

  lemma Advance(s: string, i: nat, n: nat)
    requires i < n && i <= |s| && Bounded(s[i..], n - i)
    ensures i < |s|
    ensures s[i] != '\0' ==>
      Bounded(s[i + 1..], n - i - 1) && Visible(s[i..], n - i) == [s[i]] + Visible(s[i + 1..], n - i - 1)
  {
    assert i < |s| ==> s[i..][1..] == s[i + 1..];
    assert i < |s| ==> s[i..] == [s[i]] + s[i + 1..];
  }

  lemma Consed(c: char, s: string, t: string)
    ensures [c] + s == [c] + t <==> s == t
  {
    assert ([c] + s)[1..] == s && ([c] + t)[1..] == t;
  }

  lemma Finished(s: string, i: nat)
    requires i <= |s|
    ensures Visible(s[i..], 0) == []
  {
  }

  /** At the first NUL or difference the two rests are the same only if both end. */
  lemma Decided(p: string, q: string, i: nat, n: nat)
    requires i < n && i < |p| && i < |q| && (p[i] == '\0' || p[i] != q[i])
    ensures Visible(p[i..], n - i) == Visible(q[i..], n - i) <==> p[i] == q[i]
  {
    assert p[i..][0] == p[i] && q[i..][0] == q[i];
    assert p[i] != '\0' ==> Visible(p[i..], n - i)[0] == p[i];
    assert q[i] != '\0' ==> Visible(q[i..], n - i)[0] == q[i];
  }

  /** strncmp(): zero exactly when the two names are the same. */
  method Strncmp(p: string, q: string, n: nat) returns (r: int)
    requires Bounded(p, n) && Bounded(q, n)
    ensures r == 0 <==> Visible(p, n) == Visible(q, n)
  {
    hide Visible;
    hide Bounded;
    var i := 0;
    assert p[0..] == p && q[0..] == q;
    while i < n
      invariant i <= n && i <= |p| && i <= |q| && Bounded(p[i..], n - i) && Bounded(q[i..], n - i)
      invariant Visible(p, n) == Visible(q, n) <==> Visible(p[i..], n - i) == Visible(q[i..], n - i)
    {
      Advance(p, i, n);
      Advance(q, i, n);
      if p[i] == '\0' || p[i] != q[i] {
        break;
      }
      Consed(p[i], Visible(p[i + 1..], n - i - 1), Visible(q[i + 1..], n - i - 1));
      i := i + 1;
    }
    if i == n {
      Finished(p, i);
      Finished(q, i);
      return 0;
    }
    Advance(p, i, n);
    Advance(q, i, n);
    Decided(p, q, i, n);
    return p[i] as int - q[i] as int;
  }

  function Zeros(n: nat): (r: string)
    ensures |r| == n && forall i :: 0 <= i < n ==> r[i] == '\0'
  {
    if n == 0 then [] else ['\0'] + Zeros(n - 1)
  }

  function Stored(s: string, n: nat): (r: string)
    ensures |r| == n
  {
    Visible(s, n) + Zeros(n - |Visible(s, n)|)
  }

  lemma {:induction false} PadsAway(s: string, m: nat, n: nat)
    requires |s| <= n && '\0' !in s
    ensures Visible(s + Zeros(m), n) == s
  {
    if s != [] {
      assert (s + Zeros(m))[1..] == s[1..] + Zeros(m);
      assert '\0' !in s[1..];
      PadsAway(s[1..], m, n - 1);
    }
  }

  /** What strncpy() stores is the same name again, at its full width. */
  lemma StoredSame(s: string, n: nat)
    ensures Visible(Stored(s, n), n) == Visible(s, n) && Bounded(Stored(s, n), n)
  {
    PadsAway(Visible(s, n), n - |Visible(s, n)|, n);
  }

  /** strncpy(): copies up to the NUL and fills the rest with NULs. */
  method Strncpy(t: string, n: nat) returns (s: string)
    requires Bounded(t, n)
    ensures s == Stored(t, n)
  {
    hide Visible;
    hide Bounded;
    hide Zeros;
    var i := 0;
    s := "";
    assert t[0..] == t;
    while i < n
      invariant i <= n && i <= |t| && |s| == i && Bounded(t[i..], n - i)
      invariant Visible(t, n) == s + Visible(t[i..], n - i)
    {
      Advance(t, i, n);
      if t[i] == '\0' {
        break;
      }
      assert s + ([t[i]] + Visible(t[i + 1..], n - i - 1)) == s + [t[i]] + Visible(t[i + 1..], n - i - 1);
      s := s + [t[i]];
      i := i + 1;
    }
    Stopped(t, i, n);
    ZerosEnd(0);
    var m := 0;
    while |s| < n
      invariant i <= |s| <= n && m == |s| - i && s == Visible(t, n) + Zeros(m)
    {
      ZerosEnd(m);
      assert Visible(t, n) + Zeros(m) + ['\0'] == Visible(t, n) + (Zeros(m) + ['\0']);
      s := s + ['\0'];
      m := m + 1;
    }
  }

  lemma Stopped(t: string, i: nat, n: nat)
    requires i <= n && i <= |t| && (i < n ==> i < |t| && t[i] == '\0')
    ensures Visible(t[i..], n - i) == []
  {
    assert i < n ==> t[i..][0] == t[i];
  }

  lemma ZerosEnd(m: nat)
    ensures Zeros(0) == [] && Zeros(m) + ['\0'] == Zeros(m + 1)
  {
  }

  /** The elements of a path, read one character at a time. */
  function Elements(path: string): (r: seq<string>)
    ensures path != [] && path[0] != '/' ==> r != []
  {
    if path == [] then []
    else if path[0] == '/' then Elements(path[1..])
    else if |path| == 1 || path[1] == '/' then [[path[0]]] + Elements(path[1..])
    else var rest := Elements(path[1..]); [[path[0]] + rest[0]] + rest[1..]
  }

  lemma {:induction false} SlashesSkipped(path: string, n: nat)
    requires n <= |path| && forall i :: 0 <= i < n ==> path[i] == '/'
    ensures Elements(path) == Elements(path[n..])
  {
    if n == 0 {
      assert path[0..] == path;
    } else {
      SlashesSkipped(path[1..], n - 1);
      assert path[1..][n - 1..] == path[n..];
    }
  }

  lemma {:induction false} ElementTaken(path: string, n: nat)
    requires 0 < n <= |path| && (forall i :: 0 <= i < n ==> path[i] != '/') && (n == |path| || path[n] == '/')
    ensures Elements(path) == [path[..n]] + Elements(path[n..])
  {
    if n == 1 {
      assert path[..1] == [path[0]];
    } else {
      ElementTaken(path[1..], n - 1);
      assert path[1..][n - 1..] == path[n..] && [path[0]] + path[1..][..n - 1] == path[..n];
    }
  }

  datatype Elem = NoMore | Next(rest: nat)

  method SkipSlashes(path: string, start: nat) returns (p: nat)
    requires start <= |path|
    ensures start <= p <= |path| && (p < |path| ==> path[p] != '/') && Elements(path[start..]) == Elements(path[p..])
  {
    p := start;
    while p < |path| && path[p] == '/'
      invariant start <= p <= |path| && forall i :: start <= i < p ==> path[i] == '/'
    {
      p := p + 1;
    }
    SlashesSkipped(path[start..], p - start);
    assert path[start..][p - start..] == path[p..];
  }

  method ElementEnd(path: string, start: nat) returns (p: nat)
    requires start < |path| && path[start] != '/'
    ensures start < p <= |path| && Elements(path[start..]) == [path[start..p]] + Elements(path[p..])
  {
    p := start;
    while p < |path| && path[p] != '/'
      invariant start <= p <= |path| && forall i :: start <= i < p ==> path[i] != '/'
    {
      p := p + 1;
    }
    ElementTaken(path[start..], p - start);
    assert path[start..][p - start..] == path[p..] && path[start..][..p - start] == path[start..p];
  }

  /** skipelem(): the next element goes to `name`, cut to DIRSIZ characters. */
  method Skipelem(path: string, start: nat, name: array<char>) returns (r: Elem)
    requires start <= |path| && '\0' !in path && name.Length == DIRSIZ
    modifies name
    ensures r.NoMore? <==> Elements(path[start..]) == []
    ensures r.Next? ==> start < r.rest <= |path| && (r.rest < |path| ==> path[r.rest] != '/')
    ensures r.Next? ==>
      exists e ::
      Elements(path[start..]) == [e] + Elements(path[r.rest..]) && Visible(name[..], DIRSIZ) == Visible(e, DIRSIZ)
  {
    hide Elements;
    hide Visible;
    var s := SkipSlashes(path, start);
    if s == |path| {
      EmptyPath(path[s..]);
      return NoMore;
    }
    var p := ElementEnd(path, s);
    CopyName(path[s..p], name);
    var rest := SkipSlashes(path, p);
    return Next(rest);
  }

  lemma EmptyPath(path: string)
    requires path == []
    ensures Elements(path) == []
  {
  }

  lemma {:induction false} VisibleTaken(s: string, n: nat)
    requires '\0' !in s
    ensures Visible(s, n) == if |s| < n then s else s[..n]
  {
    if n > 0 && s != [] {
      VisibleTaken(s[1..], n - 1);
    }
  }

  lemma {:induction false} VisibleEnds(s: string, t: string, n: nat)
    requires '\0' !in s && |s| < n
    ensures Visible(s + ['\0'] + t, n) == s
  {
    if s != [] {
      VisibleEnds(s[1..], t, n - 1);
      assert (s + ['\0'] + t)[1..] == s[1..] + ['\0'] + t;
    } else {
      assert (s + ['\0'] + t)[0] == '\0';
    }
  }

  /** memmove() of an element into the name buffer, with a NUL only where one fits. */
  method CopyName(e: string, name: array<char>)
    requires '\0' !in e && name.Length == DIRSIZ
    modifies name
    ensures Visible(name[..], DIRSIZ) == Visible(e, DIRSIZ)
  {
    var len := if |e| >= DIRSIZ then DIRSIZ else |e|;
    forall i | 0 <= i < len {
      name[i] := e[i];
    }
    VisibleTaken(e, DIRSIZ);
    if |e| >= DIRSIZ {
      assert name[..] == e[..DIRSIZ];
      VisibleTaken(e[..DIRSIZ], DIRSIZ);
    } else {
      name[len] := '\0';
      assert name[..] == e + ['\0'] + name[len + 1..];
      VisibleEnds(e, name[len + 1..], DIRSIZ);
    }
  }
}
