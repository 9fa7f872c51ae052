/**
 * The build driver of `depthchargectl build`: the kernel command line's
 * root= normalisation, the list of compressions to attempt, and the loop
 * that builds an image with each compression in turn until one fits the
 * board's maximum image size.
 */
module Build {
  import opened Common
  import Mkdepthcharge

  datatype BuildError =
    | UnsupportedCompression(compress: string)
    | InitramfsRequired(root: string)
    | SizeTooBig               // SizeTooBigError
    | InitramfsSizeTooBig      // InitramfsSizeTooBigError
    | BuildFailed(compress: string)

  /** The exit status each error carries; the two size errors are told apart by it. */
  function ReturnCode(e: BuildError): (code: int)
    ensures e.SizeTooBig? ==> code == 4
    ensures e.InitramfsSizeTooBig? ==> code == 3
  {
    match e
    case SizeTooBig => 4
    case InitramfsSizeTooBig => 3
    case _ => 1
  }

  // ---------------------------------------------------------------------------
  // Kernel command line: root= normalisation
  // ---------------------------------------------------------------------------

  function IndexOfEq(s: string): (i: nat)
    ensures i <= |s|
    ensures i < |s| ==> s[i] == '='
    ensures forall j :: 0 <= j < i ==> s[j] != '='
  {
    if s == [] then 0 else if s[0] == '=' then 0 else 1 + IndexOfEq(s[1..])
  }

  /** `s.partition("=")` without the separator: the text before the first "=", and after it ("" if none). */
  function Partition(s: string): (string, string)
  {
    var i := IndexOfEq(s);
    if i < |s| then (s[..i], s[i + 1..]) else (s, "")
  }

  predicate IsRootEntry(c: string)
  {
    Lower(Partition(c).0) == "root"
  }

  function RootValue(c: string): string
  {
    Partition(c).1
  }

  /** A root entry that names the configured root; with no root configured, none does. */
  predicate MatchesRoot(c: string, root: Option<string>)
  {
    IsRootEntry(c) && root == Some(RootValue(c))
  }

  /** Entries that survive normalisation: every non-root entry and the root entries naming `root`. */
  function Kept(s: seq<string>, root: Option<string>): (r: seq<string>)
    ensures |r| <= |s|
  {
    if s == [] then []
    else
      var last := s[|s| - 1];
      Kept(s[..|s| - 1], root) + (if !IsRootEntry(last) || MatchesRoot(last, root) then [last] else [])
  }

  predicate HasRoot(s: seq<string>, root: Option<string>)
  {
    s != [] && (HasRoot(s[..|s| - 1], root) || MatchesRoot(s[|s| - 1], root))
  }

  function RootEntry(root: string): string
  {
    "root=" + root
  }

  /** The normalised command line, or the error when the root cannot be mounted without a ramdisk. */
  function Normalised(cmdline: seq<string>, root: Option<string>, ignoreInitramfs: bool, hasInitrd: bool, rootRequiresInitramfs: bool): seq<string>
  {
    Kept(cmdline, root)
    + (if root.Some? && !HasRoot(cmdline, root) then [RootEntry(root.value)] else [])
    + (if ignoreInitramfs then ["noinitrd"] else [])
  }

  function NormaliseResult(cmdline: seq<string>, root: Option<string>, ignoreInitramfs: bool, hasInitrd: bool, rootRequiresInitramfs: bool): Result<seq<string>, BuildError>
  {
    if !hasInitrd && root.Some? && rootRequiresInitramfs then Err(InitramfsRequired(root.value))
    else Ok(Normalised(cmdline, root, ignoreInitramfs, hasInitrd, rootRequiresInitramfs))
  }

  /** Python's `list.remove(x)`: drop the first occurrence. */
  function RemoveFirst(s: seq<string>, x: string): (r: seq<string>)
    requires x in s
    ensures |r| == |s| - 1
    ensures multiset(r) == multiset(s) - multiset{x}
    ensures forall y :: y in r ==> y in s
  {
    assert s == [s[0]] + s[1..];
    if s[0] == x then s[1..]
    else [s[0]] + RemoveFirst(s[1..], x)
  }

  /** In a list without duplicates, removing a value removes it altogether. */
  lemma {:induction false} RemoveFirstDistinct(s: seq<string>, x: string)
    requires x in s
    requires forall i, j :: 0 <= i < j < |s| ==> s[i] != s[j]
    ensures x !in RemoveFirst(s, x)
  {
    if s[0] == x {
      assert forall k :: 0 < k < |s| ==> s[k] != x;
    } else {
      RemoveFirstDistinct(s[1..], x);
    }
  }

  lemma {:induction false} RemoveFirstAfter(a: seq<string>, b: seq<string>, x: string)
    requires x !in a && b != [] && b[0] == x
    ensures x in a + b && RemoveFirst(a + b, x) == a + b[1..]
    decreases |a|
  {
    assert (a + b)[|a|] == x;
    if a != [] {
      assert (a + b)[1..] == a[1..] + b;
      RemoveFirstAfter(a[1..], b, x);
    }
  }

  /** One more entry of the snapshot: how the kept entries and the root test extend. */
  lemma KeptStep(s: seq<string>, i: nat, root: Option<string>)
    requires i < |s|
    ensures var c := s[i];
      Kept(s[..i + 1], root) == Kept(s[..i], root) + (if !IsRootEntry(c) || MatchesRoot(c, root) then [c] else []) &&
      (HasRoot(s[..i + 1], root) <==> HasRoot(s[..i], root) || MatchesRoot(c, root)) &&
      s[i..] == [c] + s[i + 1..] &&
      (!IsRootEntry(c) || MatchesRoot(c, root) ==> Kept(s[..i + 1], root) + s[i + 1..] == Kept(s[..i], root) + s[i..])
  {
    assert s[..i + 1][..i] == s[..i];
    var c := s[i];
    if !IsRootEntry(c) || MatchesRoot(c, root) {
      calc {
        Kept(s[..i + 1], root) + s[i + 1..];
        (Kept(s[..i], root) + [c]) + s[i + 1..];
        Kept(s[..i], root) + ([c] + s[i + 1..]);
        { assert s[i..] == [c] + s[i + 1..]; }
        Kept(s[..i], root) + s[i..];
      }
    }
  }

  /** Removing a root entry that names another root takes out exactly the snapshot entry being visited. */
  lemma RemoveOtherRoot(s: seq<string>, i: nat, root: Option<string>)
    requires i < |s| && IsRootEntry(s[i]) && !MatchesRoot(s[i], root)
    ensures s[i] in Kept(s[..i], root) + s[i..]
    ensures RemoveFirst(Kept(s[..i], root) + s[i..], s[i]) == Kept(s[..i + 1], root) + s[i + 1..]
  {
    KeptStep(s, i, root);
    KeptMatches(s[..i], root);
    RemoveFirstAfter(Kept(s[..i], root), s[i..], s[i]);
  }

  lemma KeptSingle(c: string, root: Option<string>)
    ensures Kept([c], root) == if !IsRootEntry(c) || MatchesRoot(c, root) then [c] else []
  {
    assert [c][..0] == [];
  }

  lemma {:induction false} KeptMatches(s: seq<string>, root: Option<string>)
    ensures forall c :: c in Kept(s, root) && IsRootEntry(c) ==> MatchesRoot(c, root)
  {
    if s != [] {
      KeptMatches(s[..|s| - 1], root);
    }
  }

  /**
   * The loop of `kernel_cmdline`: walk a snapshot of the command line,
   * `remove` every root entry that names another root, and note whether
   * one names `root`.
   */
  method DropOtherRoots(cmdline: seq<string>, root: Option<string>) returns (cmd: seq<string>, appendRoot: bool)
    ensures cmd == Kept(cmdline, root)
    ensures appendRoot == (root.Some? && !HasRoot(cmdline, root))
  {
    cmd := cmdline;
    appendRoot := root.Some?;
    var snapshot := cmdline;
    for i := 0 to |snapshot|
      invariant cmd == Kept(snapshot[..i], root) + snapshot[i..]
      invariant appendRoot == (root.Some? && !HasRoot(snapshot[..i], root))
    {
      var c := snapshot[i];
      KeptStep(snapshot, i, root);
      if !IsRootEntry(c) {
        continue;
      }
      if root.Some? && RootValue(c) == root.value {
        appendRoot := false;
        continue;
      }
      RemoveOtherRoot(snapshot, i, root);
      cmd := RemoveFirst(cmd, c);
    }
    assert snapshot[..|snapshot|] == snapshot;
  }

  /**
   * `kernel_cmdline`: drop root entries naming another root, append
   * root=<root> unless it was already there, append "noinitrd" when the
   * ramdisk is ignored; then refuse a root that the kernel cannot mount
   * without a ramdisk.
   */
  method NormaliseCmdline(cmdline: seq<string>, root: Option<string>, ignoreInitramfs: bool, hasInitrd: bool, rootRequiresInitramfs: bool)
    returns (r: Result<seq<string>, BuildError>)
    ensures r == NormaliseResult(cmdline, root, ignoreInitramfs, hasInitrd, rootRequiresInitramfs)
  {
    var cmd, appendRoot := DropOtherRoots(cmdline, root);
    if appendRoot {
      cmd := cmd + [RootEntry(root.value)];
    }
    if ignoreInitramfs {
      cmd := cmd + ["noinitrd"];
    }
    assert cmd == Normalised(cmdline, root, ignoreInitramfs, hasInitrd, rootRequiresInitramfs);
    if !hasInitrd && root.Some? {
      if rootRequiresInitramfs {
        return Err(InitramfsRequired(root.value));
      }
    }
    return Ok(cmd);
  }

  lemma RootEntryParses(root: string)
    ensures IsRootEntry(RootEntry(root)) && RootValue(RootEntry(root)) == root
  {
    var s := RootEntry(root);
    assert s[4] == '=';
    assert IndexOfEq(s) == 4;
    assert s[..4] == "root";
    assert s[5..] == root;
  }

  lemma NoinitrdIsNotRoot()
    ensures !IsRootEntry("noinitrd")
  {
    assert IndexOfEq("noinitrd") == 8 by {
      assert forall j :: 0 <= j < 8 ==> "noinitrd"[j] != '=';
    }
  }

  lemma {:induction false} HasRootMember(s: seq<string>, root: Option<string>)
    ensures HasRoot(s, root) <==> exists c :: c in s && MatchesRoot(c, root)
  {
    if s != [] {
      HasRootMember(s[..|s| - 1], root);
      assert s == s[..|s| - 1] + [s[|s| - 1]];
    }
  }

  lemma {:induction false} KeptMember(s: seq<string>, root: Option<string>, c: string)
    ensures c in Kept(s, root) <==> c in s && (!IsRootEntry(c) || MatchesRoot(c, root))
  {
    if s != [] {
      KeptMember(s[..|s| - 1], root, c);
      assert s == s[..|s| - 1] + [s[|s| - 1]];
    }
  }

  /**
   * After normalisation every root entry names `root`; a configured root
   * is always present; and it was appended exactly when the command line
   * did not already name it.
   */
  lemma NormalisedRoot(cmdline: seq<string>, root: Option<string>, ignoreInitramfs: bool, hasInitrd: bool, req: bool)
    ensures var n := Normalised(cmdline, root, ignoreInitramfs, hasInitrd, req);
      (forall c :: c in n && IsRootEntry(c) ==> MatchesRoot(c, root)) &&
      (root.Some? ==> exists c :: c in n && MatchesRoot(c, root)) &&
      (root.Some? ==> (|n| > |Kept(cmdline, root)| && n[|Kept(cmdline, root)|] == RootEntry(root.value) <==> !HasRoot(cmdline, root)))
  {
    var n := Normalised(cmdline, root, ignoreInitramfs, hasInitrd, req);
    var k := Kept(cmdline, root);
    KeptMatches(cmdline, root);
    NoinitrdIsNotRoot();
    if root.Some? {
      RootEntryParses(root.value);
      HasRootMember(cmdline, root);
      if HasRoot(cmdline, root) {
        var c :| c in cmdline && MatchesRoot(c, root);
        KeptMember(cmdline, root, c);
        if |n| > |k| {
          assert n[|k|] == "noinitrd";
        }
      }
    }
  }

  function NonRoot(s: seq<string>): seq<string>
  {
    if s == [] then []
    else NonRoot(s[..|s| - 1]) + (if IsRootEntry(s[|s| - 1]) then [] else [s[|s| - 1]])
  }

  lemma {:induction false} NonRootAppend(a: seq<string>, b: seq<string>)
    ensures NonRoot(a + b) == NonRoot(a) + NonRoot(b)
    decreases |b|
  {
    if b == [] {
      assert a + b == a;
    } else {
      assert (a + b)[..|a + b| - 1] == a + b[..|b| - 1];
      NonRootAppend(a, b[..|b| - 1]);
    }
  }

  lemma NonRootSingle(c: string)
    ensures NonRoot([c]) == if IsRootEntry(c) then [] else [c]
  {
    assert [c][..0] == [];
  }

  lemma {:induction false} NonRootOfKept(s: seq<string>, root: Option<string>)
    ensures NonRoot(Kept(s, root)) == NonRoot(s)
  {
    if s != [] {
      var init := s[..|s| - 1];
      var last := s[|s| - 1];
      NonRootOfKept(init, root);
      var tail := if !IsRootEntry(last) || MatchesRoot(last, root) then [last] else [];
      assert Kept(s, root) == Kept(init, root) + tail;
      NonRootAppend(Kept(init, root), tail);
      NonRootSingle(last);
      assert NonRoot(s) == NonRoot(init) + (if IsRootEntry(last) then [] else [last]);
    }
  }

  /** Entries other than root= are all kept, in their order; only "noinitrd" may follow them. */
  lemma NormalisedKeepsOthers(cmdline: seq<string>, root: Option<string>, ignoreInitramfs: bool, hasInitrd: bool, req: bool)
    ensures NonRoot(Normalised(cmdline, root, ignoreInitramfs, hasInitrd, req)) ==
      NonRoot(cmdline) + (if ignoreInitramfs then ["noinitrd"] else [])
  {
    var k := Kept(cmdline, root);
    var ra := if root.Some? && !HasRoot(cmdline, root) then [RootEntry(root.value)] else [];
    var ni: seq<string> := if ignoreInitramfs then ["noinitrd"] else [];
    assert Normalised(cmdline, root, ignoreInitramfs, hasInitrd, req) == k + ra + ni;
    NonRootOfKept(cmdline, root);
    NonRootAppend(k + ra, ni);
    NonRootAppend(k, ra);
    assert NonRoot(ra) == [] by {
      if root.Some? {
        RootEntryParses(root.value);
        NonRootSingle(RootEntry(root.value));
      }
    }
    assert NonRoot(ni) == ni by {
      NoinitrdIsNotRoot();
      NonRootSingle("noinitrd");
    }
    calc {
      NonRoot(k + ra + ni);
      NonRoot(k + ra) + NonRoot(ni);
      NonRoot(k) + NonRoot(ra) + ni;
      NonRoot(cmdline) + ni;
    }
  }

  lemma {:induction false} KeptAppend(a: seq<string>, b: seq<string>, root: Option<string>)
    ensures Kept(a + b, root) == Kept(a, root) + Kept(b, root)
    decreases |b|
  {
    if b == [] {
      assert a + b == a;
    } else {
      assert (a + b)[..|a + b| - 1] == a + b[..|b| - 1];
      KeptAppend(a, b[..|b| - 1], root);
    }
  }

  lemma {:induction false} KeptIdempotent(s: seq<string>, root: Option<string>)
    ensures Kept(Kept(s, root), root) == Kept(s, root)
  {
    if s != [] {
      var init := s[..|s| - 1];
      var last := s[|s| - 1];
      KeptIdempotent(init, root);
      var tail := if !IsRootEntry(last) || MatchesRoot(last, root) then [last] else [];
      assert Kept(s, root) == Kept(init, root) + tail;
      KeptAppend(Kept(init, root), tail, root);
      KeptSingle(last, root);
    }
  }

  /** The normalised entries all survive a second normalisation. */
  lemma NormalisedAllKept(cmdline: seq<string>, root: Option<string>, ignoreInitramfs: bool)
    ensures var n := Normalised(cmdline, root, ignoreInitramfs, false, false); Kept(n, root) == n
  {
    var k := Kept(cmdline, root);
    var ra := if root.Some? && !HasRoot(cmdline, root) then [RootEntry(root.value)] else [];
    var ni: seq<string> := if ignoreInitramfs then ["noinitrd"] else [];
    assert Normalised(cmdline, root, ignoreInitramfs, false, false) == k + ra + ni;
    KeptIdempotent(cmdline, root);
    KeptAppend(k + ra, ni, root);
    KeptAppend(k, ra, root);
    assert Kept(ra, root) == ra by {
      if root.Some? {
        RootEntryParses(root.value);
        KeptSingle(RootEntry(root.value), root);
      }
    }
    assert Kept(ni, root) == ni by {
      NoinitrdIsNotRoot();
      KeptSingle("noinitrd", root);
    }
    calc {
      Kept(k + ra + ni, root);
      Kept(k + ra, root) + Kept(ni, root);
      Kept(k, root) + Kept(ra, root) + ni;
      k + ra + ni;
    }
  }

  /** A normalised command line names the configured root. */
  lemma NormalisedHasRoot(cmdline: seq<string>, root: Option<string>, ignoreInitramfs: bool)
    requires root.Some?
    ensures HasRoot(Normalised(cmdline, root, ignoreInitramfs, false, false), root)
  {
    var n := Normalised(cmdline, root, ignoreInitramfs, false, false);
    var k := Kept(cmdline, root);
    HasRootMember(n, root);
    HasRootMember(cmdline, root);
    if HasRoot(cmdline, root) {
      var c :| c in cmdline && MatchesRoot(c, root);
      KeptMember(cmdline, root, c);
      assert c in n;
    } else {
      RootEntryParses(root.value);
      assert n[|k|] == RootEntry(root.value);
      assert MatchesRoot(n[|k|], root);
    }
  }

  /** Normalising an already normalised command line (without asking for "noinitrd" again) changes nothing. */
  lemma NormaliseIdempotent(cmdline: seq<string>, root: Option<string>, ignoreInitramfs: bool, hasInitrd: bool, req: bool)
    ensures var n := Normalised(cmdline, root, ignoreInitramfs, hasInitrd, req);
      Normalised(n, root, false, hasInitrd, req) == n
  {
    var n := Normalised(cmdline, root, ignoreInitramfs, hasInitrd, req);
    assert n == Normalised(cmdline, root, ignoreInitramfs, false, false);
    NormalisedAllKept(cmdline, root, ignoreInitramfs);
    if root.Some? {
      NormalisedHasRoot(cmdline, root, ignoreInitramfs);
    }
    assert Normalised(n, root, false, hasInitrd, req) == Kept(n, root) + [] + [];
  }

  // ---------------------------------------------------------------------------
  // Compression list
  // ---------------------------------------------------------------------------

  const Compressions: seq<string> := ["none", "lz4", "lzma"]

  /** What the build needs to know about the board. */
  datatype Board = Board(bootsLz4: bool, bootsLzma: bool, format: Mkdepthcharge.Format, maxSize: nat)

  /** Index of the first occurrence of `x` in `s`. */
  function FirstIndex(s: seq<string>, x: string): (i: nat)
    requires x in s
    ensures i < |s| && s[i] == x && x !in s[..i]
  {
    if s[0] == x then 0 else 1 + FirstIndex(s[1..], x)
  }

  /** `list.remove(x)` takes out exactly the first occurrence and keeps the rest in order. */
  lemma {:induction false} RemoveFirstAt(s: seq<string>, x: string)
    requires x in s
    ensures var i := FirstIndex(s, x); RemoveFirst(s, x) == s[..i] + s[i + 1..]
  {
    if s[0] != x {
      var t := s[1..];
      RemoveFirstAt(t, x);
      var i := FirstIndex(t, x);
      assert FirstIndex(s, x) == i + 1;
      assert RemoveFirst(s, x) == [s[0]] + RemoveFirst(t, x);
      SpliceCons(s, i);
    }
  }

  /** Dropping position i + 1 of a sequence is keeping its head and dropping position i of its tail. */
  lemma SpliceCons(s: seq<string>, i: nat)
    requires i + 1 < |s|
    ensures s[..i + 1] + s[i + 2..] == [s[0]] + (s[1..][..i] + s[1..][i + 1..])
  {
    assert s[..i + 1] == [s[0]] + s[1..][..i];
    assert s[i + 2..] == s[1..][i + 1..];
  }

  /** `sorted(set(s), key=s.index)`: keep the first occurrence of each value. */
  function Dedup(s: seq<string>): (r: seq<string>)
    ensures forall x :: x in r <==> x in s
    ensures forall i, j :: 0 <= i < j < |r| ==> r[i] != r[j]
  {
    if s == [] then []
    else
      var d := Dedup(s[..|s| - 1]);
      var last := s[|s| - 1];
      assert s == s[..|s| - 1] + [last];
      if last in d then d else d + [last]
  }

  /** The deduplicated values come in the order of their first occurrence, which is what sorting by `s.index` gives. */
  lemma {:induction false} DedupFirstOccurrenceOrder(s: seq<string>)
    ensures forall i, j :: 0 <= i < j < |Dedup(s)| ==> FirstIndex(s, Dedup(s)[i]) < FirstIndex(s, Dedup(s)[j])
  {
    if s != [] {
      var init := s[..|s| - 1];
      var last := s[|s| - 1];
      var d := Dedup(init);
      DedupFirstOccurrenceOrder(init);
      var r := Dedup(s);
      forall x | x in init
        ensures FirstIndex(s, x) == FirstIndex(init, x)
      {
        FirstIndexPrefix(init, [last], x);
        assert s == init + [last];
      }
      forall i, j | 0 <= i < j < |r|
        ensures FirstIndex(s, r[i]) < FirstIndex(s, r[j])
      {
        if j < |d| {
          assert r[i] == d[i] && r[j] == d[j];
          assert d[i] in d && d[j] in d;
          assert FirstIndex(s, d[i]) == FirstIndex(init, d[i]) && FirstIndex(s, d[j]) == FirstIndex(init, d[j]);
          assert FirstIndex(init, d[i]) < FirstIndex(init, d[j]);
        } else {
          assert j == |d| && r == d + [last];
          assert r[j] == last && last !in init;
          assert r[i] == d[i] && d[i] in d && d[i] in init;
          assert FirstIndex(s, d[i]) == FirstIndex(init, d[i]) < |init|;
          assert FirstIndex(s, last) == |s| - 1 by {
            assert s[..|s| - 1] == init;
          }
        }
      }
    }
  }

  lemma {:induction false} FirstIndexPrefix(a: seq<string>, b: seq<string>, x: string)
    requires x in a
    ensures x in a + b && FirstIndex(a + b, x) == FirstIndex(a, x)
    decreases |a|
  {
    assert (a + b)[..|a|] == a;
    if a[0] != x {
      assert (a + b)[1..] == a[1..] + b;
      FirstIndexPrefix(a[1..], b, x);
    }
  }

  /** The first requested type that is not a known compression, if any. */
  function FirstUnsupported(requested: seq<string>): (r: Option<string>)
    ensures r.None? <==> forall c :: c in requested ==> c in Compressions
    ensures r.Some? ==> r.value in requested && r.value !in Compressions
  {
    if requested == [] then None
    else if requested[0] !in Compressions then Some(requested[0])
    else
      var r := FirstUnsupported(requested[1..]);
      assert forall c :: c in requested ==> c == requested[0] || c in requested[1..];
      r
  }

  /**
   * `compress`: every requested type must be known; with none requested,
   * "none" plus whatever the board boots, but only "none" for zImage
   * boards; then duplicates are dropped.
   */
  function CompressList(requested: seq<string>, board: Board): (r: Result<seq<string>, BuildError>)
    ensures r.Err? <==> exists c :: c in requested && c !in Compressions
    ensures r.Ok? ==> forall c :: c in r.value ==> c in Compressions
    ensures r.Ok? ==> forall i, j :: 0 <= i < j < |r.value| ==> r.value[i] != r.value[j]
    ensures r.Ok? && requested != [] ==> r.value == Dedup(requested)
    ensures requested == [] ==> r.Ok? && "none" in r.value
  {
    var bad := FirstUnsupported(requested);
    if bad.Some? then Err(UnsupportedCompression(bad.value))
    else if requested == [] then
      var defaults :=
        if board.format == Mkdepthcharge.ZImage then ["none"]
        else ["none"] + (if board.bootsLz4 then ["lz4"] else []) + (if board.bootsLzma then ["lzma"] else []);
      Ok(Dedup(defaults))
    else Ok(Dedup(requested))
  }

  /** The defaults spelled out: "none", then lz4 and lzma as the board supports them; zImage boards get only "none". */
  lemma CompressDefaults(board: Board)
    ensures board.format == Mkdepthcharge.ZImage ==> CompressList([], board) == Ok(["none"])
    ensures board.format == Mkdepthcharge.Fit ==>
      CompressList([], board) == Ok(["none"] + (if board.bootsLz4 then ["lz4"] else []) + (if board.bootsLzma then ["lzma"] else []))
  {
    var d := ["none"] + (if board.bootsLz4 then ["lz4"] else []) + (if board.bootsLzma then ["lzma"] else []);
    DedupDistinct(d);
    DedupDistinct(["none"]);
  }

  /** A list without duplicates is its own deduplication. */
  lemma {:induction false} DedupDistinct(s: seq<string>)
    requires forall i, j :: 0 <= i < j < |s| ==> s[i] != s[j]
    ensures Dedup(s) == s
  {
    if s != [] {
      var init := s[..|s| - 1];
      DedupDistinct(init);
      assert s[|s| - 1] !in init;
      assert s == init + [s[|s| - 1]];
    }
  }

  // ---------------------------------------------------------------------------
  // The size-fit driver
  // ---------------------------------------------------------------------------

  /** What one mkdepthcharge run with a given compression produced: an image of some size, or a failure. */
  datatype Attempt = Built(size: nat) | Failed

  datatype Image = Image(compress: string, size: nat)

  /** The driver's result and the compressions it ran mkdepthcharge with, in order. */
  datatype Outcome = Outcome(result: Result<Image, BuildError>, tried: seq<string>)

  function Sum(xs: seq<nat>): nat
  {
    if xs == [] then 0 else xs[0] + Sum(xs[1..])
  }

  /** The compressions left to try: "none" is skipped when the inputs alone exceed the limit. */
  function Candidates(list: seq<string>, inputsSize: nat, maxSize: nat): (r: seq<string>)
    ensures "none" in list && inputsSize > maxSize ==> |r| == |list| - 1
    ensures "none" in list && inputsSize > maxSize ==>
      var i := FirstIndex(list, "none"); r == list[..i] + list[i + 1..]
    ensures !("none" in list && inputsSize > maxSize) ==> r == list
  {
    if inputsSize > maxSize && "none" in list then
      RemoveFirstAt(list, "none");
      RemoveFirst(list, "none")
    else list
  }

  /** The for/else loop: the first image strictly under the limit wins; a failed build ends everything. */
  function TryEach(cands: seq<string>, build: string -> Attempt, maxSize: nat, hasInitrd: bool): Outcome
  {
    if cands == [] then Outcome(Err(if hasInitrd then InitramfsSizeTooBig else SizeTooBig), [])
    else
      var c := cands[0];
      match build(c)
      case Failed => Outcome(Err(BuildFailed(c)), [c])
      case Built(size) =>
        if size < maxSize then Outcome(Ok(Image(c, size)), [c])
        else
          var rest := TryEach(cands[1..], build, maxSize, hasInitrd);
          Outcome(rest.result, [c] + rest.tried)
  }

  /** The whole driver: ramdisk check first, then the compression list, then the loop. */
  function Drive(initrdSize: Option<nat>, kernelSize: nat, dtbSizes: seq<nat>, requested: seq<string>, board: Board, build: string -> Attempt): Outcome
  {
    var initrd := if initrdSize.Some? then initrdSize.value else 0;
    if initrd >= board.maxSize then Outcome(Err(InitramfsSizeTooBig), [])
    else
      match CompressList(requested, board)
      case Err(e) => Outcome(Err(e), [])
      case Ok(list) =>
        var inputsSize := kernelSize + initrd + Sum(dtbSizes);
        TryEach(Candidates(list, inputsSize, board.maxSize), build, board.maxSize, initrdSize.Some?)
  }

  /**
   * `__call__` up to the copy to the output: reject an oversized ramdisk,
   * drop "none" when the inputs are too big, then run mkdepthcharge with
   * each compression until an image is small enough.
   */
  method SizeFit(initrdSize: Option<nat>, kernelSize: nat, dtbSizes: seq<nat>, requested: seq<string>, board: Board, build: string -> Attempt)
    returns (r: Result<Image, BuildError>, tried: seq<string>)
    ensures Outcome(r, tried) == Drive(initrdSize, kernelSize, dtbSizes, requested, board, build)
  {
    var initrd := if initrdSize.Some? then initrdSize.value else 0;
    tried := [];
    if initrd >= board.maxSize {
      return Err(InitramfsSizeTooBig), tried;
    }
    var compressList := CompressList(requested, board);
    if compressList.Err? {
      return Err(compressList.error), tried;
    }
    var list := compressList.value;
    var inputsSize := kernelSize + initrd + Sum(dtbSizes);
    if inputsSize > board.maxSize && "none" in list {
      list := RemoveFirst(list, "none");
    }
    r, tried := TryCompressions(list, build, board.maxSize, initrdSize.Some?);
  }

  /** The for/else loop of `__call__` over the compressions left to try. */
  method TryCompressions(list: seq<string>, build: string -> Attempt, maxSize: nat, hasInitrd: bool)
    returns (r: Result<Image, BuildError>, tried: seq<string>)
    ensures Outcome(r, tried) == TryEach(list, build, maxSize, hasInitrd)
  {
    tried := [];
    ghost var target := TryEach(list, build, maxSize, hasInitrd);
    assert list[0..] == list;
    var i := 0;
    while i < |list|
      invariant 0 <= i <= |list|
      invariant tried == list[..i]
      invariant target == Resume(list, i, tried, build, maxSize, hasInitrd)
    {
      var c := list[i];
      ResumeAt(list, i, tried, build, maxSize, hasInitrd);
      tried := tried + [c];
      var attempt := build(c);
      if attempt.Failed? {
        return Err(BuildFailed(c)), tried;
      }
      if attempt.size < maxSize {
        return Ok(Image(c, attempt.size)), tried;
      }
      i := i + 1;
    }
    assert list[i..] == [] && tried + [] == tried;
    if hasInitrd {
      r := Err(InitramfsSizeTooBig);
    } else {
      r := Err(SizeTooBig);
    }
  }

  /** The loop's outcome seen from position i, with `tried` already run. */
  function Resume(list: seq<string>, i: nat, tried: seq<string>, build: string -> Attempt, maxSize: nat, hasInitrd: bool): Outcome
    requires i <= |list|
  {
    var rest := TryEach(list[i..], build, maxSize, hasInitrd);
    Outcome(rest.result, tried + rest.tried)
  }

  /** One step of the loop at position i: stop on a failed or small enough build, otherwise move on. */
  lemma ResumeAt(list: seq<string>, i: nat, tried: seq<string>, build: string -> Attempt, maxSize: nat, hasInitrd: bool)
    requires i < |list| && tried == list[..i]
    ensures var c := list[i];
      list[..i + 1] == tried + [c] &&
      (build(c).Failed? ==> Resume(list, i, tried, build, maxSize, hasInitrd) == Outcome(Err(BuildFailed(c)), tried + [c])) &&
      (build(c).Built? && build(c).size < maxSize ==>
        Resume(list, i, tried, build, maxSize, hasInitrd) == Outcome(Ok(Image(c, build(c).size)), tried + [c])) &&
      (build(c).Built? && build(c).size >= maxSize ==>
        Resume(list, i, tried, build, maxSize, hasInitrd) == Resume(list, i + 1, tried + [c], build, maxSize, hasInitrd))
  {
    var c := list[i];
    assert list[i..][0] == c && list[i..][1..] == list[i + 1..];
    if build(c).Built? && build(c).size >= maxSize {
      var next := TryEach(list[i + 1..], build, maxSize, hasInitrd);
      assert tried + ([c] + next.tried) == (tried + [c]) + next.tried;
    }
  }

  lemma {:induction false} TryEachShape(cands: seq<string>, build: string -> Attempt, maxSize: nat, hasInitrd: bool)
    ensures var o := TryEach(cands, build, maxSize, hasInitrd);
      o.tried <= cands &&
      (forall k :: 0 <= k < |o.tried| - 1 ==> build(o.tried[k]).Built? && build(o.tried[k]).size >= maxSize) &&
      (o.result.Ok? ==>
        (o.tried != [] && o.result.value.compress == o.tried[|o.tried| - 1] &&
         build(o.result.value.compress) == Built(o.result.value.size) && o.result.value.size < maxSize)) &&
      (o.result.Err? && o.result.error.BuildFailed? ==>
        (o.tried != [] && o.result.error.compress == o.tried[|o.tried| - 1] && build(o.result.error.compress).Failed?)) &&
      (o.result.Err? && !o.result.error.BuildFailed? ==>
        (o.tried == cands &&
         (forall k :: 0 <= k < |cands| ==> build(cands[k]).Built? && build(cands[k]).size >= maxSize) &&
         o.result.error == (if hasInitrd then InitramfsSizeTooBig else SizeTooBig)))
  {
    if cands != [] {
      TryEachShape(cands[1..], build, maxSize, hasInitrd);
      var o := TryEach(cands, build, maxSize, hasInitrd);
      var rest := TryEach(cands[1..], build, maxSize, hasInitrd);
      if build(cands[0]).Built? && build(cands[0]).size >= maxSize {
        assert o.tried == [cands[0]] + rest.tried;
        assert cands == [cands[0]] + cands[1..];
        forall k | 0 <= k < |o.tried| - 1
          ensures build(o.tried[k]).Built? && build(o.tried[k]).size >= maxSize
        {
          if k > 0 {
            assert o.tried[k] == rest.tried[k - 1];
          }
        }
        if o.result.Err? && !o.result.error.BuildFailed? {
          forall k | 0 <= k < |cands|
            ensures build(cands[k]).Built? && build(cands[k]).size >= maxSize
          {
            if k > 0 {
              assert cands[k] == cands[1..][k - 1];
            }
          }
        }
      }
    }
  }

  /** The compressions that are tried all come from the compression list. */
  lemma CandidatesFromList(list: seq<string>, inputsSize: nat, maxSize: nat)
    ensures forall x :: x in Candidates(list, inputsSize, maxSize) ==> x in list
  {
  }

  /** The compressions the driver's loop runs over; none when it stops before the loop. */
  function LoopList(initrdSize: Option<nat>, kernelSize: nat, dtbSizes: seq<nat>, requested: seq<string>, board: Board): (r: seq<string>)
    ensures forall x :: x in r ==> x in Compressions
  {
    var initrd := if initrdSize.Some? then initrdSize.value else 0;
    var compressList := CompressList(requested, board);
    if initrd >= board.maxSize || compressList.Err? then []
    else
      CandidatesFromList(compressList.value, kernelSize + initrd + Sum(dtbSizes), board.maxSize);
      Candidates(compressList.value, kernelSize + initrd + Sum(dtbSizes), board.maxSize)
  }

  /** The driver either stops before running mkdepthcharge, or its outcome is the loop's over `LoopList`. */
  lemma DriveLoop(initrdSize: Option<nat>, kernelSize: nat, dtbSizes: seq<nat>, requested: seq<string>, board: Board, build: string -> Attempt)
    ensures var o := Drive(initrdSize, kernelSize, dtbSizes, requested, board, build);
      o == TryEach(LoopList(initrdSize, kernelSize, dtbSizes, requested, board), build, board.maxSize, initrdSize.Some?) ||
      (o.tried == [] &&
       ((o.result == Err(InitramfsSizeTooBig) && (if initrdSize.Some? then initrdSize.value else 0) >= board.maxSize) ||
        (o.result.Err? && o.result.error.UnsupportedCompression?)))
  {
  }

  /**
   * The driver's guarantees: the image it returns is strictly under the
   * limit and came from the first compression (in list order) that gave
   * one, since every compression tried before it gave an image too big.
   */
  lemma DriveFirstFit(initrdSize: Option<nat>, kernelSize: nat, dtbSizes: seq<nat>, requested: seq<string>, board: Board, build: string -> Attempt)
    ensures var o := Drive(initrdSize, kernelSize, dtbSizes, requested, board, build);
      (o.result.Ok? ==>
        (o.result.value.size < board.maxSize && build(o.result.value.compress) == Built(o.result.value.size) &&
         o.tried != [] && o.tried[|o.tried| - 1] == o.result.value.compress && o.result.value.compress in Compressions)) &&
      (forall k :: 0 <= k < |o.tried| - 1 ==> build(o.tried[k]).Built? && build(o.tried[k]).size >= board.maxSize)
  {
    var o := Drive(initrdSize, kernelSize, dtbSizes, requested, board, build);
    var cands := LoopList(initrdSize, kernelSize, dtbSizes, requested, board);
    DriveLoop(initrdSize, kernelSize, dtbSizes, requested, board, build);
    TryEachShape(cands, build, board.maxSize, initrdSize.Some?);
    if o.result.Ok? {
      assert o == TryEach(cands, build, board.maxSize, initrdSize.Some?);
      assert o.result.value.compress in cands;
    }
  }

  /**
   * When every compression gives an image too big, the error is
   * InitramfsSizeTooBigError exactly when there is a ramdisk; without one it
   * is raised only by the up-front check against a zero limit.
   */
  lemma DriveSizeError(initrdSize: Option<nat>, kernelSize: nat, dtbSizes: seq<nat>, requested: seq<string>, board: Board, build: string -> Attempt)
    ensures var o := Drive(initrdSize, kernelSize, dtbSizes, requested, board, build);
      (o.result == Err(SizeTooBig) ==> initrdSize.None?) &&
      (o.result == Err(SizeTooBig) || (o.result == Err(InitramfsSizeTooBig) && o.tried != []) ==>
        forall c :: c in o.tried ==> build(c).Built? && build(c).size >= board.maxSize) &&
      (o.result == Err(InitramfsSizeTooBig) ==> initrdSize.Some? || (board.maxSize == 0 && o.tried == []))
  {
    DriveLoop(initrdSize, kernelSize, dtbSizes, requested, board, build);
    TryEachShape(LoopList(initrdSize, kernelSize, dtbSizes, requested, board), build, board.maxSize, initrdSize.Some?);
  }

  /** An oversized ramdisk is refused before mkdepthcharge runs at all. */
  lemma DriveRejectsRamdiskEarly(initrd: nat, kernelSize: nat, dtbSizes: seq<nat>, requested: seq<string>, board: Board, build: string -> Attempt)
    requires initrd >= board.maxSize
    ensures Drive(Some(initrd), kernelSize, dtbSizes, requested, board, build) == Outcome(Err(InitramfsSizeTooBig), [])
  {
  }

  /** The uncompressed build is attempted only if the inputs together fit the limit. */
  lemma DriveSkipsNone(initrdSize: Option<nat>, kernelSize: nat, dtbSizes: seq<nat>, requested: seq<string>, board: Board, build: string -> Attempt)
    ensures var o := Drive(initrdSize, kernelSize, dtbSizes, requested, board, build);
      "none" in o.tried ==> kernelSize + (if initrdSize.Some? then initrdSize.value else 0) + Sum(dtbSizes) <= board.maxSize
  {
    var initrd := if initrdSize.Some? then initrdSize.value else 0;
    if initrd < board.maxSize && CompressList(requested, board).Ok? {
      var list := CompressList(requested, board).value;
      var inputs := kernelSize + initrd + Sum(dtbSizes);
      var cands := Candidates(list, inputs, board.maxSize);
      TryEachShape(cands, build, board.maxSize, initrdSize.Some?);
      CandidatesFromList(list, inputs, board.maxSize);
      if inputs > board.maxSize && "none" in list {
        RemoveFirstDistinct(list, "none");
      }
      var o := TryEach(cands, build, board.maxSize, initrdSize.Some?);
      if "none" in o.tried {
        var k :| 0 <= k < |o.tried| && o.tried[k] == "none";
        assert cands[k] == "none";
      }
    }
  }

  /** The worked example: with images of 5, 3 and 2 MiB and a 4 MiB limit, lz4 wins although lzma is smaller. */
  lemma DriveExample()
    ensures var board := Board(true, true, Mkdepthcharge.Fit, 4 * 1048576);
      var build := (c: string) => if c == "none" then Built(5 * 1048576) else if c == "lz4" then Built(3 * 1048576) else Built(2 * 1048576);
      Drive(None, 3 * 1048576, [], [], board, build) == Outcome(Ok(Image("lz4", 3 * 1048576)), ["none", "lz4"])
  {
    var board := Board(true, true, Mkdepthcharge.Fit, 4 * 1048576);
    CompressDefaults(board);
    var cands := ["none", "lz4", "lzma"];
    assert cands[1..] == ["lz4", "lzma"];
  }

  /** The image file at the output path: the compression and size of the image last copied there. */
  class OutputFile {
    var image: Option<Image>

    constructor (image: Option<Image>)
      ensures this.image == image
    {
      this.image := image;
    }
  }

  /** Build, and copy the image to the output only when a small enough one was built. */
  method BuildImage(out: OutputFile, initrdSize: Option<nat>, kernelSize: nat, dtbSizes: seq<nat>, requested: seq<string>, board: Board, build: string -> Attempt)
    returns (r: Result<Image, BuildError>)
    modifies out
    ensures r == Drive(initrdSize, kernelSize, dtbSizes, requested, board, build).result
    ensures r.Ok? ==> out.image == Some(r.value) && r.value.size < board.maxSize
    ensures r.Err? ==> out.image == old(out.image)
  {
    var tried;
    r, tried := SizeFit(initrdSize, kernelSize, dtbSizes, requested, board, build);
    DriveFirstFit(initrdSize, kernelSize, dtbSizes, requested, board, build);
    if r.Ok? {
      out.image := Some(r.value);
    }
  }
}
