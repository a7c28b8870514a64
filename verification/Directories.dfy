/**
 Directories: lookup, insertion and the emptiness test.
 */
module Directories {
  import opened Names

  datatype Entry = Entry(inum: nat, name: string)

  /** A file has at most 268 blocks of 1024 bytes, and an entry takes sixteen. */
  const MAX_ENTRIES: nat := 17152

  const BLANK := Entry(0, Zeros(DIRSIZ))

  function Key(e: Entry): string {
    Visible(e.name, DIRSIZ)
  }

  predicate Live(e: Entry) {
    e.inum != 0
  }

  predicate Dots(name: string) {
    Visible(name, DIRSIZ) == "." || Visible(name, DIRSIZ) == ".."
  }

  /** An entry other than the two dots. */
  predicate Named(e: Entry) {
    Live(e) && !Dots(e.name)
  }

  predicate Matches(e: Entry, name: string) {
    Live(e) && Key(e) == Visible(name, DIRSIZ)
  }

  ghost predicate Absent(d: seq<Entry>, name: string) {
    forall k :: 0 <= k < |d| ==> !Matches(d[k], name)
  }

  /** Names are stored at full width, and no two live entries have the same name. */
  ghost predicate Unique(d: seq<Entry>) {
    && (forall k :: 0 <= k < |d| ==> |d[k].name| == DIRSIZ)
    && (forall j, k :: 0 <= j < k < |d| && Live(d[j]) && Live(d[k]) ==> Key(d[j]) != Key(d[k]))
  }

  /** `d'` is `d` with one more name, in a free place or at the end. */
  ghost predicate Gains(d: seq<Entry>, d': seq<Entry>, k: nat, name: string, inum: nat) {
    && k <= |d| && |d'| == (if k < |d| then |d| else k + 1) <= MAX_ENTRIES
    && (k < |d| ==> !Live(d[k]))
    && d'[k] == Entry(inum, Stored(name, DIRSIZ))
    && forall j :: 0 <= j < |d| && j != k ==> d'[j] == d[j]
  }

  lemma GainsMatches(name: string, inum: nat)
    requires inum != 0
    ensures Matches(Entry(inum, Stored(name, DIRSIZ)), name) && (Dots(Stored(name, DIRSIZ)) <==> Dots(name))
  {
    StoredSame(name, DIRSIZ);
  }

  lemma GainsUnique(d: seq<Entry>, d': seq<Entry>, k: nat, name: string, inum: nat)
    requires Unique(d) && Absent(d, name) && Gains(d, d', k, name, inum)
    ensures Unique(d')
  {
    StoredSame(name, DIRSIZ);
    forall i | 0 <= i < |d| && Live(d[i]) ensures Key(d[i]) != Visible(name, DIRSIZ) {
      assert !Matches(d[i], name);
    }
  }

  /** What create() writes first. */
  ghost predicate DotsFirst(d: seq<Entry>) {
    |d| >= 2 && Live(d[0]) && Key(d[0]) == "." && Live(d[1]) && Key(d[1]) == ".."
  }

  /** Nothing behind the first two entries. */
  ghost predicate Vacant(d: seq<Entry>) {
    forall k :: 2 <= k < |d| ==> !Live(d[k])
  }

  /** With the two dots in front, an empty rest means that no named entry is left. */
  lemma VacantMeans(d: seq<Entry>)
    requires Unique(d) && DotsFirst(d)
    ensures Vacant(d) <==> forall k :: 0 <= k < |d| ==> !Named(d[k])
  {
    hide Visible;
    forall k | 2 <= k < |d| && Live(d[k]) ensures Named(d[k]) {
      assert Key(d[0]) != Key(d[k]) && Key(d[1]) != Key(d[k]);
    }
  }
}
