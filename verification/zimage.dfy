/**
 * The zimage-with-ramdisk branch of mkdepthcharge: the signing tool cannot
 * put a ramdisk into a zimage (raw x86 bzImage) container, so the kernel is
 * padded, signed once with the ramdisk in the "bootloader" slot, and the
 * kernel's own boot parameters inside the signed container are patched to
 * point at the ramdisk. Offsets follow the Linux x86 boot protocol
 * (Documentation/x86/boot.rst in the Linux tree): the "HdrS" header
 * signature at 0x202, ramdisk_image/ramdisk_size at 0x218/0x21c and
 * pref_address/init_size at 0x258/0x260.
 *
 * The signing tool itself (vbutil_kernel) is not modelled: its pack output
 * is a parameter, and its repack and verify steps are left to the caller.
 */
module ZImage {
  import opened Common
  import opened Bytes

  /** Size of the real-mode setup code in front of the protected-mode kernel. */
  const RealModeSize: int := 0x10000
  /** Default start of the firmware's kernel buffer (`--kernel-start`). */
  const KernelStart: int := 0x100000
  /** Load address the signing tool assumes for the container body. */
  const SignerBodyLoad: int := 0x100000
  const Page: int := 0x1000
  /** The boot-params block sits this many bytes before the bootloader slot. */
  const ParamsSize: int := 0x1000
  const Max32: nat := 0x1_0000_0000

  /** b"HdrS" */
  const HdrS: seq<byte> := [0x48, 0x64, 0x72, 0x53]
  /** b"CHROMEOS", the magic of a vboot kernel partition. */
  const ChromeOS: seq<byte> := [0x43, 0x48, 0x52, 0x4f, 0x4d, 0x45, 0x4f, 0x53]

  datatype PatchError =
    | NotBzImage        // no "HdrS" at 0x202 of the kernel
    | StructError       // a fixed-width field is cut short, or a value does not fit
    | NotVbootImage     // signed output does not start with "CHROMEOS"
    | NoParamsMagic     // boot params inside the signed output lack "HdrS"
    | WrongSizeSlice    // a 4-byte slice assignment falls partly outside the buffer

  /** File offset at which memory address `addr` lands when the body is loaded at `loadAddr`. */
  function AddrToOffs(addr: int, loadAddr: int): int
  {
    addr - loadAddr + RealModeSize
  }

  /** Memory address of file offset `offs` when the body is loaded at `loadAddr`. */
  function OffsToAddr(offs: int, loadAddr: int): int
  {
    offs + loadAddr - RealModeSize
  }

  /** Address and offset conversions are mutually inverse for the same load address. */
  lemma AddrOffsInverse(addr: int, offs: int, loadAddr: int)
    ensures OffsToAddr(AddrToOffs(addr, loadAddr), loadAddr) == addr
    ensures AddrToOffs(OffsToAddr(offs, loadAddr), loadAddr) == offs
  {
  }

  /** `align_up`: the next multiple of 0x1000 (Python `//` floors, as Dafny's `/` does for a positive divisor). */
  function AlignUp(size: int): (r: int)
    ensures r % Page == 0
    ensures size <= r < size + Page
  {
    ((size + Page - 1) / Page) * Page
  }

  /** `data[at:at+|field|] = field`, for a slice that lies inside the data. */
  function Overwrite(data: seq<byte>, at: nat, field: seq<byte>): (r: seq<byte>)
    requires at + |field| <= |data|
    ensures |r| == |data|
    ensures r[at..at + |field|] == field
    ensures forall i :: 0 <= i < |data| && !(at <= i < at + |field|) ==> r[i] == data[i]
  {
    data[..at] + field + data[at + |field|..]
  }

  // ---------------------------------------------------------------------------
  // Step 1: header validation and padding of the kernel file.
  // ---------------------------------------------------------------------------

  /**
   * The size the kernel file must reach so that the kernel's in-memory
   * self-decompression (from `pref_address`, `init_size` bytes long) stays
   * inside the file image, assuming the body is loaded at KernelStart.
   */
  function PadTarget(data: seq<byte>): (r: Result<int, PatchError>)
    ensures r.Err? <==> PySlice(data, 0x202, 0x206) != HdrS || |data| < 0x264
    ensures r.Ok? ==> r.value % Page == 0
    ensures r.Ok? ==>
      var need := AddrToOffs(LeDecode(data[0x258..0x260]) + LeDecode(data[0x260..0x264]), KernelStart);
      need <= r.value < need + Page
  {
    if PySlice(data, 0x202, 0x206) != HdrS then Err(NotBzImage)
    else
      var fields := PySlice(data, 0x258, 0x264);
      if |fields| != 12 then Err(StructError)
      else
        assert fields[..8] == data[0x258..0x260] && fields[8..] == data[0x260..0x264];
        var prefAddress, initSize := LeDecode(fields[..8]), LeDecode(fields[8..]);
        Ok(AlignUp(AddrToOffs(prefAddress + initSize, KernelStart)))
  }

  /** The kernel file after the padding step: zero-extended to the pad target when asked and needed. */
  function Padded(data: seq<byte>, pad: bool): (r: Result<seq<byte>, PatchError>)
    ensures r.Err? <==> PadTarget(data).Err?
    ensures r.Ok? ==> |r.value| >= |data| && r.value[..|data|] == data
    ensures r.Ok? ==> forall i :: |data| <= i < |r.value| ==> r.value[i] == 0
    ensures r.Ok? && pad ==> |r.value| >= PadTarget(data).value
    ensures r.Ok? && |r.value| > |data| ==> pad && |r.value| == PadTarget(data).value
  {
    match PadTarget(data)
    case Err(e) => Err(e)
    case Ok(padTo) =>
      if pad && padTo > |data| then Ok(data + seq(padTo - |data|, _ => 0))
      else Ok(data)
  }

  /**
   * The mmap'd kernel is checked and, when padding is on and the file is
   * shorter than the pad target, resized: a fresh zero-filled buffer of the
   * new size receives the old bytes. The input buffer is not changed.
   */
  method PadVmlinuz(data: array<byte>, pad: bool) returns (r: Result<array<byte>, PatchError>)
    ensures r.Err? <==> Padded(data[..], pad).Err?
    ensures r.Err? ==> r.error == Padded(data[..], pad).error
    ensures r.Ok? ==> r.value[..] == Padded(data[..], pad).value
  {
    var target := PadTarget(data[..]);
    if target.Err? {
      return Err(target.error);
    }
    var padTo := target.value;
    if !(pad && padTo > data.Length) {
      return Ok(data);
    }
    var grown := new byte[padTo](_ => 0);
    for i := 0 to data.Length
      invariant grown[..i] == data[..i]
      invariant forall k :: data.Length <= k < padTo ==> grown[k] == 0
    {
      grown[i] := data[i];
    }
    assert grown[..] == data[..] + seq(padTo - data.Length, _ => 0);
    return Ok(grown);
  }

  // ---------------------------------------------------------------------------
  // Steps 3 and 4: locate the boot params in the signed output and patch them.
  // ---------------------------------------------------------------------------

  /** Where the patch step found things in the signed container. */
  datatype Located = Located(
    preambleOffset: nat,     // == keyblock size
    bootloaderAddr: nat,     // preamble field at +0x38
    ramdiskOffset: int,      // file offset of the bootloader slot, holding the ramdisk
    ramdiskAddr: int,        // memory address of that offset for a body at KernelStart
    paramsOffset: int)       // ramdiskOffset - ParamsSize

  /** Outcome and resulting buffer of the patch step, including the error paths. */
  datatype PatchOutcome = PatchOutcome(status: Result<Located, PatchError>, image: seq<byte>)

  /** Number of elements of `data[a:b]` in Python. */
  function SliceLen(n: nat, a: int, b: int): nat
  {
    var lo, hi := PyIndex(a, n), PyIndex(b, n);
    if lo < hi then hi - lo else 0
  }

  /** Find the ramdisk and its boot params inside the signed container; no bytes change. */
  function Locate(data: seq<byte>): (r: Result<Located, PatchError>)
    ensures r.Ok? ==> |data| >= 8 && data[..8] == ChromeOS
    ensures r.Ok? ==> |data| >= 0x14 && r.value.preambleOffset == LeDecode(data[0x10..0x14])
    ensures r.Ok? ==> r.value.preambleOffset + 0x3c <= |data|
    ensures r.Ok? ==> r.value.bootloaderAddr == LeDecode(data[r.value.preambleOffset + 0x38..r.value.preambleOffset + 0x3c])
    ensures r.Ok? ==> r.value.paramsOffset == r.value.ramdiskOffset - ParamsSize
    ensures r.Ok? ==> PySlice(data, r.value.paramsOffset + 0x202, r.value.paramsOffset + 0x206) == HdrS
    ensures r.Err? && |data| >= 8 && data[..8] == ChromeOS && |data| >= 0x14 ==> r.error != NotVbootImage
    ensures (|data| >= 0x14 && data[..8] == ChromeOS &&
             var p := LeDecode(data[0x10..0x14]);
             p + 0x3c <= |data| &&
             var q := AddrToOffs(LeDecode(data[p + 0x38..p + 0x3c]), SignerBodyLoad) - ParamsSize;
             PySlice(data, q + 0x202, q + 0x206) == HdrS) ==> r.Ok?
  {
    if PySlice(data, 0, 8) != ChromeOS then Err(NotVbootImage)
    else
      var kb := PySlice(data, 0x10, 0x14);
      if |kb| != 4 then Err(StructError)
      else
        var p := LeDecode(kb);
        var bl := PySlice(data, p + 0x38, p + 0x3c);
        if |bl| != 4 then Err(StructError)
        else
          var bootloaderAddr := LeDecode(bl);
          var bootloaderOffset := AddrToOffs(bootloaderAddr, SignerBodyLoad);
          var ramdiskAddr := OffsToAddr(bootloaderOffset, KernelStart);
          var q := bootloaderOffset - ParamsSize;
          if PySlice(data, q + 0x202, q + 0x206) != HdrS then Err(NoParamsMagic)
          else Ok(Located(p, bootloaderAddr, bootloaderOffset, ramdiskAddr, q))
  }

  /** A 0x220-byte container: keyblock of 0x20 bytes, bootloader at 0xF1000, so the boot params sit at offset 0. */
  function ExampleContainer(): (d: seq<byte>)
    ensures |d| == 0x220
  {
    ChromeOS + Zeros(8) + [0x20, 0, 0, 0] + Zeros(0x44) + [0x00, 0x10, 0x0f, 0x00] + Zeros(0x1a6) + HdrS + Zeros(0x1a)
  }

  function Zeros(n: nat): (z: seq<byte>)
    ensures |z| == n && forall i :: 0 <= i < n ==> z[i] == 0
  {
    seq(n, _ => 0)
  }

  lemma LeDecodeWord(b0: byte, b1: byte, b2: byte, b3: byte)
    ensures LeDecode([b0, b1, b2, b3]) == b0 as nat + 0x100 * b1 as nat + 0x1_0000 * b2 as nat + 0x100_0000 * b3 as nat
  {
    var w := [b0, b1, b2, b3];
    assert w[1..] == [b1, b2, b3] && w[1..][1..] == [b2, b3] && w[1..][1..][1..] == [b3] && w[1..][1..][1..][1..] == [];
    var x3 := LeDecode([b3]);
    assert [b3][1..] == [] && LeDecode([]) == 0;
    assert x3 == b3 as nat;
    assert [b2, b3][1..] == [b3];
    var x2 := LeDecode([b2, b3]);
    assert x2 == b2 as nat + 0x100 * x3;
    assert [b1, b2, b3][1..] == [b2, b3];
    var x1 := LeDecode([b1, b2, b3]);
    assert x1 == b1 as nat + 0x100 * x2;
    assert LeDecode(w) == b0 as nat + 0x100 * x1;
  }

  /** The example container is located: preamble at 0x20, ramdisk slot at file offset 0x1000. */
  lemma LocateExample()
    ensures Locate(ExampleContainer()) == Ok(Located(0x20, 0xF1000, 0x1000, 0xF1000, 0))
  {
    var d := ExampleContainer();
    assert d[..8] == ChromeOS;
    assert d[0x10..0x14] == [0x20, 0, 0, 0];
    LeDecodeWord(0x20, 0, 0, 0);
    assert d[0x58..0x5c] == [0x00, 0x10, 0x0f, 0x00];
    LeDecodeWord(0x00, 0x10, 0x0f, 0x00);
    assert d[0x202..0x206] == HdrS;
  }

  /** The patch succeeds on a well-formed container, so the patch lemmas speak of reachable outcomes. */
  lemma PatchExample()
    ensures Patch(ExampleContainer(), 5).status == Ok(Located(0x20, 0xF1000, 0x1000, 0xF1000, 0))
  {
    LocateExample();
  }

  /**
   * The whole edit of the signed container: locate, then write ramdisk_image
   * and ramdisk_size as 4-byte little-endian fields. The two writes happen
   * one after the other, so a failure of the second leaves the first in place.
   */
  function Patch(data: seq<byte>, ramdiskSize: nat): (r: PatchOutcome)
    ensures |r.image| == |data|
    ensures r.status.Err? && r.status.error != WrongSizeSlice && r.status.error != StructError ==> r.image == data
  {
    match Locate(data)
    case Err(e) => PatchOutcome(Err(e), data)
    case Ok(loc) =>
      var q, n := loc.paramsOffset, |data|;
      if !(0 <= loc.ramdiskAddr < Max32) then PatchOutcome(Err(StructError), data)
      else if SliceLen(n, q + 0x218, q + 0x21c) != 4 then PatchOutcome(Err(WrongSizeSlice), data)
      else
        var first := Overwrite(data, PyIndex(q + 0x218, n), LeEncode(loc.ramdiskAddr, 4));
        if ramdiskSize >= Max32 then PatchOutcome(Err(StructError), first)
        else if SliceLen(n, q + 0x21c, q + 0x220) != 4 then PatchOutcome(Err(WrongSizeSlice), first)
        else PatchOutcome(Ok(loc), Overwrite(first, PyIndex(q + 0x21c, n), LeEncode(ramdiskSize, 4)))
  }

  /** `data[at:at+4] = struct.pack("<I", v)`: the packed bytes are copied in one by one. */
  method WriteLe32(data: array<byte>, at: nat, v: nat)
    requires at + 4 <= data.Length && v < Max32
    modifies data
    ensures data[..] == Overwrite(old(data[..]), at, LeEncode(v, 4))
  {
    assert Pow256(4) == Max32;
    var field := LeEncode(v, 4);
    ghost var before := data[..];
    for k := 0 to 4
      invariant forall i :: 0 <= i < data.Length && !(at <= i < at + k) ==> data[i] == before[i]
      invariant forall i :: 0 <= i < k ==> data[at + i] == field[i]
    {
      data[at + k] := field[k];
    }
    assert data[..] == Overwrite(before, at, field);
  }

  /** The patch step on the mmap'd signed container. */
  method PatchSignedImage(data: array<byte>, ramdiskSize: nat) returns (r: Result<Located, PatchError>)
    modifies data
    ensures r == Patch(old(data[..]), ramdiskSize).status
    ensures data[..] == Patch(old(data[..]), ramdiskSize).image
  {
    var located := Locate(data[..]);
    if located.Err? {
      return Err(located.error);
    }
    var loc := located.value;
    var q, n := loc.paramsOffset, data.Length;
    if !(0 <= loc.ramdiskAddr < Max32) {
      return Err(StructError);
    }
    if SliceLen(n, q + 0x218, q + 0x21c) != 4 {
      return Err(WrongSizeSlice);
    }
    WriteLe32(data, PyIndex(q + 0x218, n), loc.ramdiskAddr);
    if ramdiskSize >= Max32 {
      return Err(StructError);
    }
    if SliceLen(n, q + 0x21c, q + 0x220) != 4 {
      return Err(WrongSizeSlice);
    }
    WriteLe32(data, PyIndex(q + 0x21c, n), ramdiskSize);
    return Ok(loc);
  }

  // ---------------------------------------------------------------------------
  // Properties of the patch.
  // ---------------------------------------------------------------------------

  /** The ramdisk address written is the bootloader address the preamble declares. */
  lemma RamdiskAddrIsBootloaderAddr(data: seq<byte>)
    requires Locate(data).Ok?
    ensures Locate(data).value.ramdiskAddr == Locate(data).value.bootloaderAddr
    ensures AddrToOffs(Locate(data).value.ramdiskAddr, KernelStart) == Locate(data).value.ramdiskOffset
  {
  }

  /** The located ramdisk address always fits the 4-byte field, so that check never fails. */
  lemma RamdiskAddrFits(data: seq<byte>)
    requires Locate(data).Ok?
    ensures 0 <= Locate(data).value.ramdiskAddr < Max32
  {
    var loc := Locate(data).value;
    var p := loc.preambleOffset;
    LeDecodeBound(data[p + 0x38..p + 0x3c]);
    assert Pow256(4) == Max32;
  }

  /**
   * `img` is `data` with ramdisk_image = `addr` and ramdisk_size = `size`
   * written where Python's slices `[q+0x218:q+0x21c]` and `[q+0x21c:q+0x220]`
   * land: one 8-byte window starting at the normalised index of q+0x218.
   */
  predicate FieldsWritten(data: seq<byte>, img: seq<byte>, q: int, addr: nat, size: nat)
  {
    var a := PyIndex(q + 0x218, |data|);
    && a + 8 <= |data|
    && PyIndex(q + 0x21c, |data|) == a + 4
    && PyIndex(q + 0x220, |data|) == a + 8
    && addr < Max32 && size < Max32
    && (assert Pow256(4) == Max32;
        img == Overwrite(Overwrite(data, a, LeEncode(addr, 4)), a + 4, LeEncode(size, 4)))
  }

  /** What a successful patch did: the located boot params got both fields, in one 8-byte window. */
  lemma PatchOk(data: seq<byte>, ramdiskSize: nat)
    requires Patch(data, ramdiskSize).status.Ok?
    ensures Locate(data).Ok? && Patch(data, ramdiskSize).status.value == Locate(data).value
    ensures var loc := Locate(data).value;
      FieldsWritten(data, Patch(data, ramdiskSize).image, loc.paramsOffset, loc.ramdiskAddr, ramdiskSize)
  {
    assert Pow256(4) == Max32;
  }

  lemma ParamsMagic(data: seq<byte>)
    requires Locate(data).Ok?
    ensures var q := Locate(data).value.paramsOffset;
            PySlice(data, q + 0x202, q + 0x206) == HdrS
  {
  }

  /** Two adjacent 4-byte writes leave both fields readable and nothing else changed. */
  lemma TwoFields(data: seq<byte>, a: nat, f1: seq<byte>, f2: seq<byte>)
    requires a + 8 <= |data| && |f1| == 4 && |f2| == 4
    ensures var img := Overwrite(Overwrite(data, a, f1), a + 4, f2);
            && img[a..a + 4] == f1
            && img[a + 4..a + 8] == f2
            && forall i :: 0 <= i < |data| && !(a <= i < a + 8) ==> img[i] == data[i]
  {
    var first := Overwrite(data, a, f1);
    var img := Overwrite(first, a + 4, f2);
    assert img[a..a + 4] == first[a..a + 4] by {
      forall i | a <= i < a + 4 ensures img[i] == first[i] {}
    }
  }

  /** Reading the two written fields back, as Python slices them, gives the values written. */
  lemma FieldsReadBack(data: seq<byte>, img: seq<byte>, q: int, addr: nat, size: nat)
    requires FieldsWritten(data, img, q, addr, size)
    ensures LeDecode(PySlice(img, q + 0x218, q + 0x21c)) == addr
    ensures LeDecode(PySlice(img, q + 0x21c, q + 0x220)) == size
  {
    var a := PyIndex(q + 0x218, |data|);
    assert Pow256(4) == Max32;
    var f1, f2 := LeEncode(addr, 4), LeEncode(size, 4);
    TwoFields(data, a, f1, f2);
    assert PySlice(img, q + 0x218, q + 0x21c) == img[a..a + 4] == f1;
    assert PySlice(img, q + 0x21c, q + 0x220) == img[a + 4..a + 8] == f2;
    LeDecodeEncode(addr, 4);
    LeDecodeEncode(size, 4);
  }

  /**
   * Read-back: after a successful patch the two boot-params fields, read as
   * Python reads `data[q+0x218:q+0x21c]` and `data[q+0x21c:q+0x220]`, decode
   * to the ramdisk's address and size.
   */
  lemma PatchReadBack(data: seq<byte>, ramdiskSize: nat)
    requires Patch(data, ramdiskSize).status.Ok?
    ensures var loc := Patch(data, ramdiskSize).status.value;
            var img := Patch(data, ramdiskSize).image;
            var q := loc.paramsOffset;
            && LeDecode(PySlice(img, q + 0x218, q + 0x21c)) == loc.ramdiskAddr
            && LeDecode(PySlice(img, q + 0x21c, q + 0x220)) == ramdiskSize
  {
    PatchOk(data, ramdiskSize);
    var loc := Locate(data).value;
    FieldsReadBack(data, Patch(data, ramdiskSize).image, loc.paramsOffset, loc.ramdiskAddr, ramdiskSize);
  }

  /** Outside the 8-byte window nothing changes. */
  lemma FieldsFrame(data: seq<byte>, img: seq<byte>, q: int, addr: nat, size: nat)
    requires FieldsWritten(data, img, q, addr, size)
    ensures |img| == |data|
    ensures var a := PyIndex(q + 0x218, |data|);
      forall i :: 0 <= i < |data| && !(a <= i < a + 8) ==> img[i] == data[i]
  {
    assert Pow256(4) == Max32;
    TwoFields(data, PyIndex(q + 0x218, |data|), LeEncode(addr, 4), LeEncode(size, 4));
  }

  /** Only the eight bytes of ramdisk_image and ramdisk_size change. */
  lemma PatchFrame(data: seq<byte>, ramdiskSize: nat)
    requires Patch(data, ramdiskSize).status.Ok?
    ensures var q := Patch(data, ramdiskSize).status.value.paramsOffset;
            var a := PyIndex(q + 0x218, |data|);
            forall i :: 0 <= i < |data| && !(a <= i < a + 8) ==> Patch(data, ramdiskSize).image[i] == data[i]
  {
    PatchOk(data, ramdiskSize);
    var loc := Locate(data).value;
    FieldsFrame(data, Patch(data, ramdiskSize).image, loc.paramsOffset, loc.ramdiskAddr, ramdiskSize);
  }

  /** With q non-negative the window is exactly [q+0x218, q+0x220). */
  lemma FieldsAt(data: seq<byte>, img: seq<byte>, q: int, addr: nat, size: nat)
    requires q >= 0 && FieldsWritten(data, img, q, addr, size)
    ensures q + 0x220 <= |img| == |data| && addr < Pow256(4) && size < Pow256(4)
    ensures img[q + 0x218..q + 0x21c] == LeEncode(addr, 4)
    ensures img[q + 0x21c..q + 0x220] == LeEncode(size, 4)
    ensures forall i :: 0 <= i < |data| && !(q + 0x218 <= i < q + 0x220) ==> img[i] == data[i]
  {
    assert Pow256(4) == Max32;
    TwoFields(data, q + 0x218, LeEncode(addr, 4), LeEncode(size, 4));
  }

  /** For a boot-params block at a non-negative offset q the fields sit at q+0x218 and q+0x21c. */
  lemma PatchAtParams(data: seq<byte>, ramdiskSize: nat)
    requires Patch(data, ramdiskSize).status.Ok?
    requires Patch(data, ramdiskSize).status.value.paramsOffset >= 0
    ensures var loc := Patch(data, ramdiskSize).status.value;
            var img := Patch(data, ramdiskSize).image;
            var q := loc.paramsOffset;
            && q + 0x220 <= |img|
            && loc.ramdiskAddr < Pow256(4) && ramdiskSize < Pow256(4)
            && img[q + 0x218..q + 0x21c] == LeEncode(loc.ramdiskAddr, 4)
            && img[q + 0x21c..q + 0x220] == LeEncode(ramdiskSize, 4)
  {
    PatchOk(data, ramdiskSize);
    var loc := Locate(data).value;
    FieldsAt(data, Patch(data, ramdiskSize).image, loc.paramsOffset, loc.ramdiskAddr, ramdiskSize);
  }

  /** The boot-params block at a non-negative offset q starts its setup header with "HdrS" at q+0x202. */
  predicate MagicAt(img: seq<byte>, q: int)
  {
    0 <= q && q + 0x206 <= |img| && img[q + 0x202..q + 0x206] == HdrS
  }

  /** The patch leaves the "HdrS" magic of the boot params it found in place. */
  lemma PatchKeepsMagic(data: seq<byte>, ramdiskSize: nat)
    requires Patch(data, ramdiskSize).status.Ok?
    requires Patch(data, ramdiskSize).status.value.paramsOffset >= 0
    ensures MagicAt(Patch(data, ramdiskSize).image, Patch(data, ramdiskSize).status.value.paramsOffset)
  {
    PatchOk(data, ramdiskSize);
    ParamsMagic(data);
    var loc := Locate(data).value;
    MagicOutsideFields(data, Patch(data, ramdiskSize).image, loc.paramsOffset, loc.ramdiskAddr, ramdiskSize);
  }

  lemma MagicOutsideFields(data: seq<byte>, img: seq<byte>, q: int, addr: nat, size: nat)
    requires q >= 0 && FieldsWritten(data, img, q, addr, size)
    requires PySlice(data, q + 0x202, q + 0x206) == HdrS
    ensures MagicAt(img, q)
  {
    FieldsAt(data, img, q, addr, size);
    assert img[q + 0x202..q + 0x206] == data[q + 0x202..q + 0x206] by {
      forall i | q + 0x202 <= i < q + 0x206 ensures img[i] == data[i] {}
    }
  }

  // ---------------------------------------------------------------------------
  // The branch end to end, up to the re-signing.
  // ---------------------------------------------------------------------------

  /**
   * Pad the kernel, sign it once with the ramdisk in the bootloader slot
   * (`sign`, the external tool, maps the padded kernel to its output), and
   * patch the boot params. The result is the edited temporary image that
   * the signing tool then re-signs.
   */
  method ZImageWithRamdisk(kernel: array<byte>, pad: bool, sign: seq<byte> -> seq<byte>, ramdiskSize: nat)
    returns (r: Result<seq<byte>, PatchError>)
    ensures Padded(kernel[..], pad).Err? ==> r == Err(Padded(kernel[..], pad).error)
    ensures Padded(kernel[..], pad).Ok? ==>
      var signed := sign(Padded(kernel[..], pad).value);
      var out := Patch(signed, ramdiskSize);
      r == (if out.status.Ok? then Ok(out.image) else Err(out.status.error))
  {
    var padded := PadVmlinuz(kernel, pad);
    if padded.Err? {
      return Err(padded.error);
    }
    var signed := sign(padded.value[..]);
    var temp := new byte[|signed|](i requires 0 <= i < |signed| => signed[i]);
    assert temp[..] == signed;
    var status := PatchSignedImage(temp, ramdiskSize);
    if status.Err? {
      return Err(status.error);
    }
    return Ok(temp[..]);
  }
}
