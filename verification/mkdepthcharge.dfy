/**
 * The argument logic of mkdepthcharge: how positional input files are
 * sorted into kernel, ramdisk and device-tree lists by their first bytes,
 * how the single kernel and optional ramdisk are selected, how the image
 * format, compression, description and padding options are resolved and
 * checked against each other, and how the kernel command line is built.
 */
module Mkdepthcharge {
  import opened Common
  import opened Bytes
  import Utils

  // ---------------------------------------------------------------------------
  // Content sniffing
  // ---------------------------------------------------------------------------

  /** b"MZ", the PE/COFF stub of an EFI-stub kernel. */
  const MzMagic: seq<byte> := [0x4d, 0x5a]
  /** What the classifier tests for ELF files: b"ELF", the three letters without the 0x7f lead byte. */
  const ElfLetters: seq<byte> := [0x45, 0x4c, 0x46]
  /** The ELF identification bytes: 0x7f 'E' 'L' 'F'. */
  const ElfMagic: seq<byte> := [0x7f, 0x45, 0x4c, 0x46]
  /** b"070701", b"070702", b"070707": the cpio newc, crc and odc headers. */
  const CpioNewc: seq<byte> := [0x30, 0x37, 0x30, 0x37, 0x30, 0x31]
  const CpioCrc: seq<byte> := [0x30, 0x37, 0x30, 0x37, 0x30, 0x32]
  const CpioOdc: seq<byte> := [0x30, 0x37, 0x30, 0x37, 0x30, 0x37]
  /** The flattened device tree magic 0xd00dfeed, big-endian. */
  const FdtMagic: seq<byte> := [0xd0, 0x0d, 0xfe, 0xed]

  datatype Kind = Kernel | Ramdisk | DeviceTree | Unknown

  /** The magic tests of `files` as written, in their priority order. */
  function SniffAsWritten(head: seq<byte>): Kind
  {
    if StartsWith(head, MzMagic) || StartsWith(head, ElfLetters) then Kernel
    else if StartsWith(head, CpioNewc) || StartsWith(head, CpioCrc) || StartsWith(head, CpioOdc) then Ramdisk
    else if StartsWith(head, FdtMagic) then DeviceTree
    else Unknown
  }

  /** The magic tests with the ELF test matching real ELF files. */
  function Sniff(head: seq<byte>): (k: Kind)
    ensures StartsWith(head, MzMagic) || StartsWith(head, ElfMagic) ==> k == Kernel
    ensures !StartsWith(head, ElfMagic) ==> k == SniffAsWritten(head)
  {
    if StartsWith(head, ElfMagic) then Kernel else SniffAsWritten(head)
  }

  /** The magic numbers are mutually exclusive, so the priority order only matters for heads that match nothing. */
  lemma SniffCases(head: seq<byte>)
    ensures Sniff(head) == Kernel <==> StartsWith(head, MzMagic) || StartsWith(head, ElfLetters) || StartsWith(head, ElfMagic)
    ensures Sniff(head) == Ramdisk <==> StartsWith(head, CpioNewc) || StartsWith(head, CpioCrc) || StartsWith(head, CpioOdc)
    ensures Sniff(head) == DeviceTree <==> StartsWith(head, FdtMagic)
  {
    if StartsWith(head, FdtMagic) {
      assert head[0] == 0xd0;
    }
    if StartsWith(head, CpioNewc) || StartsWith(head, CpioCrc) || StartsWith(head, CpioOdc) {
      assert head[0] == 0x30;
    }
  }

  /** Counterexample: a real ELF header is not recognised by the test as written. */
  lemma ElfHeadMissed()
    ensures SniffAsWritten([0x7f, 0x45, 0x4c, 0x46, 0x02, 0x01]) == Unknown
    ensures Sniff([0x7f, 0x45, 0x4c, 0x46, 0x02, 0x01]) == Kernel
  {
    var head: seq<byte> := [0x7f, 0x45, 0x4c, 0x46, 0x02, 0x01];
    assert head[..2] != MzMagic by { assert head[0] != MzMagic[0]; }
    assert head[..3] != ElfLetters by { assert head[0] != ElfLetters[0]; }
    assert head[..6] != CpioNewc && head[..6] != CpioCrc && head[..6] != CpioOdc by { assert head[0] != CpioNewc[0]; }
    assert head[..4] != FdtMagic;
    assert StartsWith(head, ElfMagic);
  }

  // ---------------------------------------------------------------------------
  // Classification of positional files
  // ---------------------------------------------------------------------------

  /** A positional input: its resolved path and its (decompressed) first bytes. */
  datatype InputFile = InputFile(path: string, head: seq<byte>)

  datatype Lists = Lists(vmlinuz: seq<string>, initramfs: seq<string>, dtbs: seq<string>)

  /** Where one file goes, given the lists so far: its kind, or for an unknown file the first empty list. */
  function Place(acc: Lists, path: string, kind: Kind): Lists
  {
    match kind
    case Kernel => acc.(vmlinuz := acc.vmlinuz + [path])
    case Ramdisk => acc.(initramfs := acc.initramfs + [path])
    case DeviceTree => acc.(dtbs := acc.dtbs + [path])
    case Unknown =>
      if |acc.vmlinuz| == 0 then acc.(vmlinuz := acc.vmlinuz + [path])
      else if |acc.initramfs| == 0 then acc.(initramfs := acc.initramfs + [path])
      else acc.(dtbs := acc.dtbs + [path])
  }

  /** Placing a file appends it to exactly one list and leaves the other two alone. */
  lemma PlaceAppends(acc: Lists, path: string, kind: Kind)
    ensures var r := Place(acc, path, kind);
      (r.vmlinuz == acc.vmlinuz || r.vmlinuz == acc.vmlinuz + [path]) &&
      (r.initramfs == acc.initramfs || r.initramfs == acc.initramfs + [path]) &&
      (r.dtbs == acc.dtbs || r.dtbs == acc.dtbs + [path]) &&
      |r.vmlinuz| + |r.initramfs| + |r.dtbs| == |acc.vmlinuz| + |acc.initramfs| + |acc.dtbs| + 1
  {
  }

  function SniffBy(head: seq<byte>, asWritten: bool): Kind
  {
    if asWritten then SniffAsWritten(head) else Sniff(head)
  }

  /**
   * The three lists after placing the files in order, with the magic tests
   * as written (`asWritten`) or with the ELF test corrected.
   */
  function Classify(files: seq<InputFile>, asWritten: bool): Lists
  {
    if files == [] then Lists([], [], [])
    else
      var last := files[|files| - 1];
      Place(Classify(files[..|files| - 1], asWritten), last.path, SniffBy(last.head, asWritten))
  }

  /** `files`: sniff each input in turn and append it to one of three lists. */
  method ClassifyFiles(files: seq<InputFile>, asWritten: bool) returns (vmlinuz: seq<string>, initramfs: seq<string>, dtbs: seq<string>)
    ensures Lists(vmlinuz, initramfs, dtbs) == Classify(files, asWritten)
    ensures |vmlinuz| + |initramfs| + |dtbs| == |files|
  {
    vmlinuz, initramfs, dtbs := [], [], [];
    for i := 0 to |files|
      invariant Lists(vmlinuz, initramfs, dtbs) == Classify(files[..i], asWritten)
    {
      var f := files[i];
      var kind := SniffBy(f.head, asWritten);
      if kind == Kernel {
        vmlinuz := vmlinuz + [f.path];
      } else if kind == Ramdisk {
        initramfs := initramfs + [f.path];
      } else if kind == DeviceTree {
        dtbs := dtbs + [f.path];
      } else if |vmlinuz| == 0 {
        vmlinuz := vmlinuz + [f.path];
      } else if |initramfs| == 0 {
        initramfs := initramfs + [f.path];
      } else {
        dtbs := dtbs + [f.path];
      }
      assert files[..i + 1][..i] == files[..i];
    }
    assert files[..|files|] == files;
    ClassifyCounts(files, asWritten);
  }

  function Paths(files: seq<InputFile>): (r: seq<string>)
    ensures |r| == |files|
    ensures forall i :: 0 <= i < |files| ==> r[i] == files[i].path
  {
    seq(|files|, i requires 0 <= i < |files| => files[i].path)
  }

  /** Every file lands in exactly one list. */
  lemma {:induction false} ClassifyCounts(files: seq<InputFile>, asWritten: bool)
    ensures var c := Classify(files, asWritten); |c.vmlinuz| + |c.initramfs| + |c.dtbs| == |files|
  {
    if files != [] {
      ClassifyCounts(files[..|files| - 1], asWritten);
    }
  }

  /** `a` can be obtained from `b` by deleting elements. */
  predicate IsSubsequence(a: seq<string>, b: seq<string>)
    decreases |b|
  {
    a == [] ||
    (b != [] &&
     ((a[|a| - 1] == b[|b| - 1] && IsSubsequence(a[..|a| - 1], b[..|b| - 1])) || IsSubsequence(a, b[..|b| - 1])))
  }

  lemma SubsequenceStep(a0: seq<string>, a: seq<string>, ps0: seq<string>, p: string)
    requires IsSubsequence(a0, ps0)
    requires a == a0 || a == a0 + [p]
    ensures IsSubsequence(a, ps0 + [p])
  {
    assert (ps0 + [p])[..|ps0|] == ps0;
    if a != a0 {
      assert a[..|a| - 1] == a0;
    }
  }

  /** Each list keeps the argument order of the files it received. */
  lemma {:induction false} ClassifyKeepsOrder(files: seq<InputFile>, asWritten: bool)
    ensures var c := Classify(files, asWritten);
      IsSubsequence(c.vmlinuz, Paths(files)) && IsSubsequence(c.initramfs, Paths(files)) && IsSubsequence(c.dtbs, Paths(files))
  {
    if files != [] {
      var init := files[..|files| - 1];
      var f := files[|files| - 1];
      ClassifyKeepsOrder(init, asWritten);
      assert Paths(files) == Paths(init) + [f.path];
      var c0 := Classify(init, asWritten);
      var c := Classify(files, asWritten);
      assert c == Place(c0, f.path, SniffBy(f.head, asWritten));
      PlaceAppends(c0, f.path, SniffBy(f.head, asWritten));
      SubsequenceStep(c0.vmlinuz, c.vmlinuz, Paths(init), f.path);
      SubsequenceStep(c0.initramfs, c.initramfs, Paths(init), f.path);
      SubsequenceStep(c0.dtbs, c.dtbs, Paths(init), f.path);
    }
  }

  /** Later files only append: the lists of a prefix of the arguments are prefixes of the final lists. */
  lemma {:induction false} ClassifyGrows(files: seq<InputFile>, j: nat, asWritten: bool)
    requires j <= |files|
    ensures var c0, c := Classify(files[..j], asWritten), Classify(files, asWritten);
      c0.vmlinuz <= c.vmlinuz && c0.initramfs <= c.initramfs && c0.dtbs <= c.dtbs
    decreases |files| - j
  {
    if j < |files| {
      ClassifyGrows(files, j + 1, asWritten);
      assert files[..j + 1][..j] == files[..j];
    } else {
      assert files[..j] == files;
    }
  }

  /** A file whose magic is recognised lands in the list of its kind, whatever surrounds it. */
  lemma ClassifyRoutesMagic(files: seq<InputFile>, k: nat, asWritten: bool)
    requires k < |files|
    ensures SniffBy(files[k].head, asWritten) == Kernel ==> files[k].path in Classify(files, asWritten).vmlinuz
    ensures SniffBy(files[k].head, asWritten) == Ramdisk ==> files[k].path in Classify(files, asWritten).initramfs
    ensures SniffBy(files[k].head, asWritten) == DeviceTree ==> files[k].path in Classify(files, asWritten).dtbs
  {
    ClassifyGrows(files, k + 1, asWritten);
    var pre := files[..k + 1];
    assert pre[..k] == files[..k] && pre[k] == files[k];
    var c0 := Classify(files[..k], asWritten);
    var c := Classify(pre, asWritten);
    var path := files[k].path;
    assert c == Place(c0, path, SniffBy(files[k].head, asWritten));
    match SniffBy(files[k].head, asWritten)
    case Kernel =>
      assert c.vmlinuz == c0.vmlinuz + [path];
      assert Classify(files, asWritten).vmlinuz[|c0.vmlinuz|] == path;
    case Ramdisk =>
      assert c.initramfs == c0.initramfs + [path];
      assert Classify(files, asWritten).initramfs[|c0.initramfs|] == path;
    case DeviceTree =>
      assert c.dtbs == c0.dtbs + [path];
      assert Classify(files, asWritten).dtbs[|c0.dtbs|] == path;
    case Unknown =>
  }

  /** An unrecognised file goes to vmlinuz if that list is still empty, else to initramfs if that is, else to dtbs. */
  lemma ClassifyFallback(files: seq<InputFile>, f: InputFile, asWritten: bool)
    requires SniffBy(f.head, asWritten) == Unknown
    ensures var c0, c := Classify(files, asWritten), Classify(files + [f], asWritten);
      if c0.vmlinuz == [] then c == c0.(vmlinuz := [f.path])
      else if c0.initramfs == [] then c == c0.(initramfs := [f.path])
      else c == c0.(dtbs := c0.dtbs + [f.path])
  {
    assert (files + [f])[..|files|] == files;
  }

  /** When nothing is recognised, the files fill the lists in usage order: one kernel, one ramdisk, then dtbs. */
  lemma {:induction false} ClassifyAllUnknown(files: seq<InputFile>, asWritten: bool)
    requires forall i :: 0 <= i < |files| ==> SniffBy(files[i].head, asWritten) == Unknown
    ensures var c := Classify(files, asWritten);
      c.vmlinuz == Paths(files)[..if |files| < 1 then |files| else 1] &&
      c.initramfs == (if |files| < 2 then [] else [files[1].path]) &&
      c.dtbs == (if |files| < 2 then [] else Paths(files)[2..])
  {
    if files != [] {
      var init := files[..|files| - 1];
      ClassifyAllUnknown(init, asWritten);
      assert Paths(files)[..|files| - 1] == Paths(init);
      if |files| > 2 {
        assert Paths(files)[2..] == Paths(init)[2..] + [files[|files| - 1].path];
      }
    }
  }

  /** The same classification with the magic tests as written. */
  lemma ElfKernelSwapped()
    ensures var files := [InputFile("initrd.img", [0x28, 0xb5, 0x2f, 0xfd]), InputFile("vmlinux", [0x7f, 0x45, 0x4c, 0x46, 0x02, 0x01])];
      Classify(files, true) == Lists(["initrd.img"], ["vmlinux"], []) &&
      Classify(files, false) == Lists(["initrd.img", "vmlinux"], [], [])
  {
    ElfHeadMissed();
    var zstd: seq<byte> := [0x28, 0xb5, 0x2f, 0xfd];
    assert SniffAsWritten(zstd) == Unknown by {
      assert zstd[..2] != MzMagic by { assert zstd[0] != MzMagic[0]; }
      assert zstd[..3] != ElfLetters by { assert zstd[0] != ElfLetters[0]; }
      assert zstd[..4] != FdtMagic;
      assert |zstd| < |CpioNewc|;
    }
    assert !StartsWith(zstd, ElfMagic) by { assert zstd[0] != ElfMagic[0]; }
    var files := [InputFile("initrd.img", zstd), InputFile("vmlinux", [0x7f, 0x45, 0x4c, 0x46, 0x02, 0x01])];
    assert files[..1] == [files[0]];
    assert files[..1][..0] == [];
  }

  // ---------------------------------------------------------------------------
  // Selection of the inputs
  // ---------------------------------------------------------------------------

  datatype SelectError = NoKernel | MultipleKernels | MultipleRamdisks

  /** An option value as a list of zero or one files. */
  function OptionList(o: Option<string>): (r: seq<string>)
    ensures o.None? ==> r == []
    ensures o.Some? ==> r == [o.value]
  {
    if o.Some? then [o.value] else []
  }

  /** An explicit option value goes before the classified files. */
  function Candidates(explicit: Option<string>, found: seq<string>): (c: seq<string>)
    ensures |c| == |found| + (if explicit.Some? then 1 else 0)
    ensures explicit.Some? ==> c[0] == explicit.value && c[1..] == found
    ensures explicit.None? ==> c == found
  {
    OptionList(explicit) + found
  }

  /** `vmlinuz`: exactly one kernel candidate is required. */
  function SelectVmlinuz(explicit: Option<string>, found: seq<string>): (r: Result<string, SelectError>)
    ensures r == Err(NoKernel) <==> |Candidates(explicit, found)| == 0
    ensures r == Err(MultipleKernels) <==> |Candidates(explicit, found)| > 1
    ensures r.Ok? ==> Candidates(explicit, found) == [r.value]
  {
    var files := Candidates(explicit, found);
    if |files| == 0 then Err(NoKernel)
    else if |files| > 1 then Err(MultipleKernels)
    else Ok(files[0])
  }

  /** `initramfs`: at most one ramdisk candidate. */
  function SelectInitramfs(explicit: Option<string>, found: seq<string>): (r: Result<Option<string>, SelectError>)
    ensures r.Err? <==> |Candidates(explicit, found)| > 1
    ensures r.Err? ==> r.error == MultipleRamdisks
    ensures r == Ok(None) <==> Candidates(explicit, found) == []
    ensures r.Ok? && r.value.Some? ==> Candidates(explicit, found) == [r.value.value]
  {
    var files := Candidates(explicit, found);
    if |files| > 1 then Err(MultipleRamdisks)
    else if files != [] then Ok(Some(files[0]))
    else Ok(None)
  }

  /** `dtbs`: the explicit device trees, then the classified ones. */
  function SelectDtbs(explicit: seq<string>, found: seq<string>): (r: seq<string>)
    ensures |r| == |explicit| + |found|
    ensures r[..|explicit|] == explicit && r[|explicit|..] == found
  {
    explicit + found
  }

  datatype Inputs = Inputs(vmlinuz: string, initramfs: Option<string>, dtbs: seq<string>)

  /** The inputs as `__call__` reads them: kernel first, so its errors come first. */
  function SelectInputs(vmlinuz: Option<string>, initramfs: Option<string>, dtbs: seq<string>, files: seq<InputFile>, asWritten: bool): (r: Result<Inputs, SelectError>)
  {
    var c := Classify(files, asWritten);
    match SelectVmlinuz(vmlinuz, c.vmlinuz)
    case Err(e) => Err(e)
    case Ok(k) =>
      match SelectInitramfs(initramfs, c.initramfs)
      case Err(e) => Err(e)
      case Ok(rd) => Ok(Inputs(k, rd, SelectDtbs(dtbs, c.dtbs)))
  }

  function Contents(c: Lists): multiset<string>
  {
    multiset(c.vmlinuz) + multiset(c.initramfs) + multiset(c.dtbs)
  }

  lemma PlaceContents(acc: Lists, path: string, kind: Kind)
    ensures Contents(Place(acc, path, kind)) == Contents(acc) + multiset{path}
  {
  }

  /** One more file: the lists grow by that file and nothing else. */
  lemma ClassifyStep(files: seq<InputFile>, asWritten: bool)
    requires files != []
    ensures var f := files[|files| - 1];
      Classify(files, asWritten) == Place(Classify(files[..|files| - 1], asWritten), f.path, SniffBy(f.head, asWritten))
  {
  }

  /** The three lists hold exactly the positional files, each once. */
  lemma {:induction false} ClassifyMultiset(files: seq<InputFile>, asWritten: bool)
    ensures Contents(Classify(files, asWritten)) == multiset(Paths(files))
  {
    if files != [] {
      var init := files[..|files| - 1];
      var f := files[|files| - 1];
      ClassifyMultiset(init, asWritten);
      assert Paths(files) == Paths(init) + [f.path];
      ClassifyStep(files, asWritten);
      PlaceContents(Classify(init, asWritten), f.path, SniffBy(f.head, asWritten));
    }
  }

  /** No input is dropped or doubled: a successful selection uses every explicit and positional file exactly once. */
  lemma SelectInputsUsesAll(vmlinuz: Option<string>, initramfs: Option<string>, dtbs: seq<string>, files: seq<InputFile>, asWritten: bool)
    requires SelectInputs(vmlinuz, initramfs, dtbs, files, asWritten).Ok?
    ensures var r := SelectInputs(vmlinuz, initramfs, dtbs, files, asWritten).value;
      multiset([r.vmlinuz] + OptionList(r.initramfs) + r.dtbs) ==
      multiset(OptionList(vmlinuz) + OptionList(initramfs) + dtbs + Paths(files))
  {
    var c := Classify(files, asWritten);
    var r := SelectInputs(vmlinuz, initramfs, dtbs, files, asWritten).value;
    ClassifyMultiset(files, asWritten);
    SelectedParts(vmlinuz, initramfs, dtbs, c, r);
  }

  lemma SelectedParts(vmlinuz: Option<string>, initramfs: Option<string>, dtbs: seq<string>, c: Lists, r: Inputs)
    requires SelectVmlinuz(vmlinuz, c.vmlinuz) == Ok(r.vmlinuz)
    requires SelectInitramfs(initramfs, c.initramfs) == Ok(r.initramfs)
    requires r.dtbs == SelectDtbs(dtbs, c.dtbs)
    ensures multiset([r.vmlinuz] + OptionList(r.initramfs) + r.dtbs) ==
      multiset(OptionList(vmlinuz) + OptionList(initramfs) + dtbs) + Contents(c)
  {
    var a, b := OptionList(vmlinuz), OptionList(initramfs);
    assert [r.vmlinuz] == a + c.vmlinuz by {
      assert Candidates(vmlinuz, c.vmlinuz) == [r.vmlinuz];
    }
    assert OptionList(r.initramfs) == b + c.initramfs by {
      assert Candidates(initramfs, c.initramfs) == OptionList(r.initramfs);
    }
    RegroupMultiset(a, c.vmlinuz, b, c.initramfs, dtbs, c.dtbs);
  }

  lemma RegroupMultiset(a: seq<string>, v: seq<string>, b: seq<string>, i: seq<string>, d: seq<string>, t: seq<string>)
    ensures multiset((a + v) + (b + i) + (d + t)) == multiset(a + b + d) + (multiset(v) + multiset(i) + multiset(t))
  {
  }

  /** Two kernel images among the positional files are refused, whatever else is given. */
  lemma TwoKernelsRefused(files: seq<InputFile>, i: nat, j: nat, vmlinuz: Option<string>, initramfs: Option<string>, dtbs: seq<string>, asWritten: bool)
    requires i < j < |files|
    requires SniffBy(files[i].head, asWritten) == Kernel && SniffBy(files[j].head, asWritten) == Kernel
    ensures SelectInputs(vmlinuz, initramfs, dtbs, files, asWritten) == Err(MultipleKernels)
  {
    TwoKernelsCounted(files, i, j, asWritten);
    assert SelectVmlinuz(vmlinuz, Classify(files, asWritten).vmlinuz) == Err(MultipleKernels);
  }

  lemma TwoKernelsCounted(files: seq<InputFile>, i: nat, j: nat, asWritten: bool)
    requires i < j < |files|
    requires SniffBy(files[i].head, asWritten) == Kernel && SniffBy(files[j].head, asWritten) == Kernel
    ensures |Classify(files, asWritten).vmlinuz| >= 2
  {
    KernelAt(files, i, asWritten);
    KernelAt(files, j, asWritten);
    PrefixGrows(files, i + 1, j, asWritten);
    ClassifyGrows(files, j + 1, asWritten);
  }

  lemma KernelAt(files: seq<InputFile>, k: nat, asWritten: bool)
    requires k < |files| && SniffBy(files[k].head, asWritten) == Kernel
    ensures |Classify(files[..k + 1], asWritten).vmlinuz| == |Classify(files[..k], asWritten).vmlinuz| + 1
  {
    var p := files[..k + 1];
    assert p[|p| - 1] == files[k] && p[..|p| - 1] == files[..k];
    ClassifyKernel(p, asWritten);
  }

  lemma PrefixGrows(files: seq<InputFile>, a: nat, b: nat, asWritten: bool)
    requires a <= b <= |files|
    ensures |Classify(files[..a], asWritten).vmlinuz| <= |Classify(files[..b], asWritten).vmlinuz|
  {
    ClassifyGrows(files[..b], a, asWritten);
    assert files[..b][..a] == files[..a];
  }

  /** A file sniffed as a kernel adds one entry to the kernel list. */
  lemma ClassifyKernel(files: seq<InputFile>, asWritten: bool)
    requires files != [] && SniffBy(files[|files| - 1].head, asWritten) == Kernel
    ensures |Classify(files, asWritten).vmlinuz| == |Classify(files[..|files| - 1], asWritten).vmlinuz| + 1
  {
    ClassifyStep(files, asWritten);
  }

  // ---------------------------------------------------------------------------
  // Options
  // ---------------------------------------------------------------------------

  datatype Format = Fit | ZImage

  datatype OptionError =
    | UnknownArchitecture(arch: string)
    | UnknownFormat(format: Option<string>)
    | UnsupportedCompression(compress: string)
    | ZImageCompress
    | ZImageName
    | ZImageDtbs

  /** `arch`: default to the build machine (taken as given, unchecked); otherwise a known name. */
  function ResolveArch(requested: Option<string>, machine: string): (r: Result<string, OptionError>)
    ensures requested.None? ==> r == Ok(machine)
    ensures requested.Some? ==> (r.Ok? <==> requested.value in Utils.AllNames)
    ensures r.Ok? && requested.Some? ==> r.value == requested.value
  {
    if requested.None? then Ok(machine)
    else if requested.value !in Utils.AllNames then Err(UnknownArchitecture(requested.value))
    else Ok(requested.value)
  }

  /** `image_format`: FIT for ARM, zImage for x86 by default; only those two are accepted. */
  function ResolveFormat(requested: Option<string>, arch: string): (r: Result<Format, OptionError>)
    ensures requested.None? ==> (r.Ok? <==> arch in Utils.AllNames)
    ensures requested.None? && arch in Utils.ArmNames ==> r == Ok(Fit)
    ensures requested.None? && arch in Utils.X86Names ==> r == Ok(ZImage)
    ensures requested.Some? ==> (r.Ok? <==> requested.value in ["fit", "zimage"])
    ensures requested == Some("fit") ==> r == Ok(Fit)
    ensures requested == Some("zimage") ==> r == Ok(ZImage)
  {
    var format :=
      if requested.Some? then requested
      else if arch in Utils.ArmNames then Some("fit")
      else if arch in Utils.X86Names then Some("zimage")
      else None;
    if format == Some("fit") then Ok(Fit)
    else if format == Some("zimage") then Ok(ZImage)
    else Err(UnknownFormat(format))
  }

  /** `compress`: "none" by default for FIT, which the FIT packer must always be given. */
  function ResolveCompress(requested: Option<string>, format: Format): (r: Result<Option<string>, OptionError>)
    ensures r.Err? <==> requested.Some? && requested.value !in ["none", "lz4", "lzma"]
    ensures r.Ok? && r.value.Some? ==> r.value.value in ["none", "lz4", "lzma"]
    ensures r.Ok? && format == Fit ==> r.value.Some?
    ensures requested.Some? && r.Ok? ==> r.value == requested
  {
    var t := if requested.None? && format == Fit then Some("none") else requested;
    if t.Some? && t.value !in ["none", "lz4", "lzma"] then Err(UnsupportedCompression(t.value))
    else Ok(t)
  }

  /** `name`: "unavailable" by default for FIT, so the kernel entry matches the others. */
  function ResolveName(desc: Option<string>, format: Format): (r: Option<string>)
    ensures desc.Some? ==> r == desc
    ensures desc.None? ==> (r.Some? <==> format == Fit)
  {
    if desc.None? && format == Fit then Some("unavailable") else desc
  }

  /** `options`: the zImage format takes no compression, no description and no device trees. */
  function CheckOptions(format: Format, compress: Option<string>, name: Option<string>, dtbs: seq<string>): (r: Result<(), OptionError>)
    ensures r.Ok? <==> format.Fit? || ((compress.None? || compress == Some("none")) && name.None? && dtbs == [])
    ensures r == Err(ZImageCompress) <==> format.ZImage? && !(compress.None? || compress == Some("none"))
    ensures r == Err(ZImageName) <==> format.ZImage? && (compress.None? || compress == Some("none")) && name.Some?
    ensures r == Err(ZImageDtbs) <==> format.ZImage? && (compress.None? || compress == Some("none")) && name.None? && dtbs != []
  {
    if format.ZImage? then
      if !(compress.None? || compress == Some("none")) then Err(ZImageCompress)
      else if name.Some? then Err(ZImageName)
      else if dtbs != [] then Err(ZImageDtbs)
      else Ok(())
    else Ok(())
  }

  /** With compression and description left to their defaults, only device trees can make the options clash. */
  lemma DefaultOptionsConsistent(format: Format, dtbs: seq<string>)
    ensures ResolveCompress(None, format).Ok?
    ensures var c := ResolveCompress(None, format).value;
      CheckOptions(format, c, ResolveName(None, format), dtbs).Ok? <==> format == Fit || dtbs == []
  {
  }

  /** `pad_vmlinuz`: by default pad exactly the zImages that carry a ramdisk. */
  function ResolvePad(pad: Option<bool>, format: Format, initramfs: Option<string>): (r: bool)
    ensures pad.Some? ==> r == pad.value
    ensures pad.None? ==> (r <==> format == ZImage && initramfs.Some?)
  {
    if pad.None? then format == ZImage && initramfs.Some? else pad.value
  }

  // ---------------------------------------------------------------------------
  // Kernel command line
  // ---------------------------------------------------------------------------

  const KernGuid: string := "kern_guid=%U"

  /** `cmdline`: "--" stands in for an empty command line; kern_guid=%U goes first unless switched off. */
  function Cmdline(cmd: seq<string>, kernGuid: Option<bool>): (r: string)
    ensures kernGuid != Some(false) ==> |r| >= |KernGuid| + 1 && r[..|KernGuid| + 1] == KernGuid + " "
    ensures kernGuid != Some(false) ==> r[|KernGuid| + 1..] == (if cmd == [] then "--" else Join(cmd, " "))
    ensures cmd == [] ==> r != ""
    ensures cmd == [] && kernGuid == Some(false) ==> r == "--"
    ensures kernGuid == Some(false) && cmd != [] ==> r == Join(cmd, " ")
  {
    var base := if |cmd| == 0 then "--" else if |cmd| == 1 then cmd[0] else Join(cmd, " ");
    if kernGuid.None? || kernGuid.value then KernGuid + " " + base else base
  }

  lemma {:induction false} JoinHasParts(parts: seq<string>, sep: string, i: nat)
    requires i < |parts|
    ensures HasSubstring(Join(parts, sep), parts[i])
  {
    if |parts| == 1 {
      SubstringOfConcat("", parts[0], "");
      assert "" + parts[0] + "" == parts[0];
    } else if i == 0 {
      SubstringOfConcat("", parts[0], sep + Join(parts[1..], sep));
      assert "" + parts[0] + (sep + Join(parts[1..], sep)) == Join(parts, sep);
    } else {
      JoinHasParts(parts[1..], sep, i - 1);
      assert parts[1..][i - 1] == parts[i];
      SubstringAfterPrefix(parts[0] + sep, Join(parts[1..], sep), parts[i]);
      assert Join(parts, sep) == (parts[0] + sep) + Join(parts[1..], sep);
    }
  }

  /** No argument is lost: each command-line argument occurs in the resulting command line. */
  lemma CmdlineKeepsArguments(cmd: seq<string>, kernGuid: Option<bool>, i: nat)
    requires i < |cmd|
    ensures HasSubstring(Cmdline(cmd, kernGuid), cmd[i])
  {
    var base := if |cmd| == 1 then cmd[0] else Join(cmd, " ");
    assert base == Join(cmd, " ");
    JoinHasParts(cmd, " ", i);
    if kernGuid.None? || kernGuid.value {
      SubstringAfterPrefix(KernGuid + " ", base, cmd[i]);
    }
  }
}
