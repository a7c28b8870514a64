/**
 The image of mkfs as the kernel's directory and link layer finds it.
 */
module ImageBoot {
  import opened Names
  import opened Directories
  import opened FsFormat
  import opened Ownership
  import opened FileData
  import opened DirFiles
  import opened Mkfs
  import opened MkfsImage
  import InodeTable
  import Links
  import LinkRuns

  /** A C string: bytes, none of them zero. */
  ghost predicate CText(b: seq<nat>) {
    Bytes(b) && 0 !in b
  }

  lemma NameText(f: Input)
    requires CText(f.arg)
    ensures CText(FileName(f))
  {
  }

  ghost function NamesOf(files: seq<Input>): (r: seq<string>)
    requires forall t :: 0 <= t < |files| ==> CText(files[t].arg)
    ensures |r| == |files|
  {
    seq(|files|, t requires 0 <= t < |files| => NameText(files[t]); Chars(FileName(files[t])))
  }

  /** mkfs writes the entry that the kernel would. */
  lemma SameEntry(inum: nat, name: seq<nat>)
    requires CText(name) && inum < 0x1_0000
    ensures var e := LinkRuns.NewEntry(inum, Chars(name)); DirFiles.Storable(e) && Dirent(inum, name) == Encode(e)
  {
    hide Visible;
    var s := Chars(name);
    assert '\0' !in s by {
      forall k | 0 <= k < |s| ensures s[k] != '\0' {
        assert name[k] in name;
      }
    }
    VisibleTaken(s, DIRSIZ);
    StoredBytes(s);
    var e := LinkRuns.NewEntry(inum, s);
    var b, b' := Dirent(inum, name), Encode(e);
    forall k | 0 <= k < 16 ensures b[k] == b'[k] {
      if k >= 2 {
        assert b'[k] == e.name[k - 2] as nat;
      }
    }
  }

  lemma AppendEntry(c: seq<nat>, e: Entry)
    requires Bytes(c) && |c| % 16 == 0 && DirFiles.Storable(e)
    ensures Bytes(c + Encode(e)) && Dirents(c + Encode(e)) == Dirents(c) + [e]
  {
    EntrySpliced(c, |c| / 16, e);
    assert Splice(c, |c|, Encode(e)) == c + Encode(e);
  }

  /** The root directory as mkfs builds it, entry by entry. */
  lemma {:induction false} RootEntries(files: seq<Input>, k: nat)
    requires k <= |files| < 0x1_0000 - 2 && forall t :: 0 <= t < |files| ==> CText(files[t].arg)
    ensures var c := ImageTexts(files, k)[1];
      Bytes(c) && |c| % 16 == 0 && Dirents(c) == LinkRuns.RootDir(NamesOf(files)[..k], 0)
  {
    hide Encode;
    hide Dirent;
    hide Stored;
    hide DirFiles.Storable;
    if k == 0 {
      DotEntries();
    } else {
      RootEntries(files, k - 1);
      var name := FileName(files[k - 1]);
      NameText(files[k - 1]);
      SameEntry(k + 1, name);
      var c, e := ImageTexts(files, k - 1)[1], LinkRuns.NewEntry(k + 1, Chars(name));
      AppendEntry(c, e);
      RootDirStep(NamesOf(files), k);
    }
  }

  lemma RootDirStep(names: seq<string>, k: nat)
    requires 0 < k <= |names|
    ensures LinkRuns.RootDir(names[..k], 0) == LinkRuns.RootDir(names[..k - 1],
      0) + [LinkRuns.NewEntry(k + 1, names[k - 1])]
  {
    hide Stored;
  }

  lemma DotEntries()
    ensures var c := Dirent(1, [46]) + Dirent(1, [46, 46]);
      Bytes(c) && |c| % 16 == 0 && Dirents(c) == LinkRuns.RootDir([], 0)
  {
    hide Encode;
    hide Stored;
    SameEntry(1, [46]);
    SameEntry(1, [46, 46]);
    assert Chars([46]) == "." && Chars([46, 46]) == "..";
    var d, dd := LinkRuns.NewEntry(1, "."), LinkRuns.NewEntry(1, "..");
    AppendEntry([], d);
    assert [] + Encode(d) == Encode(d) && Dirents([]) == [] && [] + [d] == [d];
    AppendEntry(Encode(d), dd);
    assert LinkRuns.RootDir([], 0) == [d] + [dd];
  }

  lemma {:induction false} BlankEntries(c: seq<nat>, pad: nat)
    requires Bytes(c) && |c| % 16 == 0
    ensures var z := c + seq(16 * pad, _ => 0); Bytes(z) && Dirents(z) == Dirents(c) + seq(pad, _ => BLANK)
  {
    hide Encode;
    hide Dirents;
    if pad == 0 {
      assert c + seq(0, _ => 0) == c && Dirents(c) + seq(0, _ => BLANK) == Dirents(c);
    } else {
      BlankEntries(c, pad - 1);
      var z := c + seq(16 * (pad - 1), _ => 0);
      BlankEncoded();
      AppendEntry(z, BLANK);
      assert z + Encode(BLANK) == c + seq(16 * pad, _ => 0);
      assert Dirents(c) + seq(pad - 1, _ => BLANK) + [BLANK] == Dirents(c) + seq(pad, _ => BLANK);
    }
  }

  lemma BlankEncoded()
    ensures DirFiles.Storable(BLANK) && Encode(BLANK) == seq(16, _ => 0)
  {
  }

  // ---- the state at boot ----

  /** Inode i for the link layer: its type and count from the image, and its entries if it is the root directory. */
  ghost function InodeOf(d: Image, nodes: Nodes, i: nat): Links.Inode
  {
    if i !in nodes then Links.Inode(0, 0, [])
    else if i == 1 then Links.Inode(T_DIR, 1, if DirFile(d, nodes[1]) then Listing(d, nodes[1]) else [])
    else Links.Inode(T_FILE, 1, [])
  }

  ghost function BootState(d: Image, nodes: Nodes, ninodes: nat): Links.State
  {
    Links.State(
      seq(ninodes, (i: nat) => InodeOf(d, nodes, i)),
      seq(InodeTable.NINODE, _ => InodeTable.Slot(0, 0, 0, false, 0, 0)),
      map[])
  }

  function Pad(n: nat): nat {
    (FixedSize(DIRENT_SIZE * (n + 2)) - DIRENT_SIZE * (n + 2)) / DIRENT_SIZE
  }

  lemma RootListing(d: Image, nodes: Nodes, owner: map<nat, Slot>, files: seq<Input>)
    requires Complete(d, nodes, owner, files) && nodes[1].size <= MAXBYTES && |files| < 0x1_0000 - 2 &&
      (forall t :: 0 <= t < |files| ==> CText(files[t].arg))
    requires LinkRuns.Distinct(NamesOf(files))
    ensures DirFile(d, nodes[1]) && Listing(d, nodes[1]) == LinkRuns.RootDir(NamesOf(files), Pad(|files|))
  {
    hide Owned;
    hide Content;
    hide ImageTexts;
    hide Dirents;
    hide Covered;
    hide LinkRuns.Distinct;
    var names, c := NamesOf(files), ImageTexts(files, |files|)[1];
    var pad := Pad(|files|);
    RootEntries(files, |files|);
    assert names[..|files|] == names;
    BlankEntries(c, pad);
    assert FixedSize(|c|) - |c| == 16 * pad;
    RootPadded(names, pad);
    LinkRuns.RootUnique(names, pad);
  }

  lemma RootPadded(names: seq<string>, pad: nat)
    ensures LinkRuns.RootDir(names, 0) + seq(pad, _ => BLANK) == LinkRuns.RootDir(names, pad)
  {
    hide Stored;
  }

  /**
   From an image with distinct file names, the link layer starts in a state that satisfies its invariant.
   */
  lemma ImageBoots(d: Image, nodes: Nodes, owner: map<nat, Slot>, files: seq<Input>, ninodes: nat)
    requires Complete(d, nodes, owner, files) && nodes[1].size <= MAXBYTES && |files| + 2 <= ninodes < 0x1_0000 &&
      (forall t :: 0 <= t < |files| ==> CText(files[t].arg))
    requires LinkRuns.Distinct(NamesOf(files))
    ensures LinkRuns.Boots(BootState(d, nodes, ninodes), NamesOf(files), Pad(|files|)) &&
      Links.Inv(BootState(d, nodes, ninodes))
  {
    hide Owned;
    hide Content;
    hide RootThere;
    hide Covered;
    hide LinkRuns.Distinct;
    hide LinkRuns.RootDir;
    hide Links.Inv;
    hide DirFile;
    RootListing(d, nodes, owner, files);
    LinkRuns.BootInv(BootState(d, nodes, ninodes), NamesOf(files), Pad(|files|));
  }
}
