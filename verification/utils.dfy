/**
 * The helpers of depthcharge_tools/utils.py that the image pipeline leans
 * on: CPU architecture names and their tool codes, the file names of
 * (de)compressed siblings, file-name heuristics, GPT attribute decoding,
 * partition naming, the block-device tree walk and the slot rule of the
 * mixed positional-argument action.
 */
module Utils {
  import opened Common

  // ---------------------------------------------------------------------------
  // Architecture
  // ---------------------------------------------------------------------------

  const Arm32: seq<string> := ["arm"]
  const Arm64: seq<string> := ["arm64", "aarch64"]
  const X86_32: seq<string> := ["i386", "x86"]
  const X86_64: seq<string> := ["x86_64", "amd64"]
  const ArmNames: seq<string> := Arm32 + Arm64
  const X86Names: seq<string> := X86_32 + X86_64
  const AllNames: seq<string> := ArmNames + X86Names
  /** The equality groups: four of them, one per word size and family. */
  const Groups: seq<seq<string>> := [Arm32, Arm64, X86_32, X86_64]

  /** The right-hand side of a comparison: another Architecture, or a plain string. */
  datatype Operand = ArchValue(name: string) | PlainStr(name: string)

  predicate SameGroup(a: string, b: string)
  {
    exists i :: 0 <= i < |Groups| && a in Groups[i] && b in Groups[i]
  }

  /** `Architecture.__eq__`: group equality against another Architecture, else string equality. */
  function ArchEq(self: string, other: Operand): bool
  {
    (other.ArchValue? && SameGroup(self, other.name)) || self == other.name
  }

  /**
   * `Architecture.__ne__` as written: it answers True as soon as `self` is
   * in a group that `other` is not in, and otherwise falls back to string
   * inequality, so two different names of the same group are both equal
   * and unequal.
   */
  function ArchNeAsWritten(self: string, other: Operand): bool
  {
    (other.ArchValue? && exists i :: 0 <= i < |Groups| && self in Groups[i] && other.name !in Groups[i])
    || self != other.name
  }

  /** `Architecture.__ne__` as evidently intended: the negation of `__eq__`. */
  function ArchNe(self: string, other: Operand): (r: bool)
    ensures r <==> !ArchEq(self, other)
    ensures r ==> self != other.name
    ensures other.ArchValue? ==> (r <==> !SameGroup(self, other.name) && self != other.name)
    ensures other.PlainStr? ==> (r <==> self != other.name)
  {
    !ArchEq(self, other)
  }

  /** Counterexample: "arm64" and "aarch64" compare both equal and unequal as written. */
  lemma ArchNeAsWrittenDisagrees()
    ensures ArchEq("arm64", ArchValue("aarch64"))
    ensures ArchNeAsWritten("arm64", ArchValue("aarch64"))
    ensures !ArchNe("arm64", ArchValue("aarch64"))
  {
    assert "arm64" in Groups[1] && "aarch64" in Groups[1];
  }

  /** Where the two `__ne__` differ: exactly on distinct names of one group. */
  lemma ArchNeAsWrittenCharacterised(self: string, other: Operand)
    ensures ArchNeAsWritten(self, other) <==> ArchNe(self, other) || (other.ArchValue? && SameGroup(self, other.name) && self != other.name)
  {
    if other.ArchValue? && self != other.name && SameGroup(self, other.name) {
      var i :| 0 <= i < |Groups| && self in Groups[i] && other.name in Groups[i];
    }
  }

  /** Group membership spelled out: each name lies in one group only. */
  lemma SameGroupCases(a: string, b: string)
    ensures SameGroup(a, b) <==>
      (a in Arm32 && b in Arm32) || (a in Arm64 && b in Arm64) ||
      (a in X86_32 && b in X86_32) || (a in X86_64 && b in X86_64)
  {
    if (a in Arm32 && b in Arm32) { assert a in Groups[0] && b in Groups[0]; }
    if (a in Arm64 && b in Arm64) { assert a in Groups[1] && b in Groups[1]; }
    if (a in X86_32 && b in X86_32) { assert a in Groups[2] && b in Groups[2]; }
    if (a in X86_64 && b in X86_64) { assert a in Groups[3] && b in Groups[3]; }
  }

  /** Architecture equality is an equivalence between Architecture values. */
  lemma ArchEqIsEquivalence(a: string, b: string, c: string)
    ensures ArchEq(a, ArchValue(a))
    ensures ArchEq(a, ArchValue(b)) ==> ArchEq(b, ArchValue(a))
    ensures ArchEq(a, ArchValue(b)) && ArchEq(b, ArchValue(c)) ==> ArchEq(a, ArchValue(c))
  {
    SameGroupCases(a, b);
    SameGroupCases(b, a);
    SameGroupCases(b, c);
    SameGroupCases(a, c);
  }

  /** `Architecture.mkimage`: the architecture code for the FIT packer, None for unknown names. */
  function MkimageCode(a: string): Option<string>
  {
    if a in Arm32 then Some("arm")
    else if a in Arm64 then Some("arm64")
    else if a in X86_32 then Some("x86")
    else if a in X86_64 then Some("x86_64")
    else None
  }

  /** `Architecture.vboot`: the architecture code for the signing tool, None for unknown names. */
  function VbootCode(a: string): Option<string>
  {
    if a in Arm32 then Some("arm")
    else if a in Arm64 then Some("aarch64")
    else if a in X86_32 then Some("x86")
    else if a in X86_64 then Some("amd64")
    else None
  }

  /** Every known name has both codes; unknown names have neither; equal architectures share codes. */
  lemma ArchCodes(a: string, b: string)
    ensures a in AllNames <==> MkimageCode(a).Some?
    ensures a in AllNames <==> VbootCode(a).Some?
    ensures MkimageCode(a).Some? ==> MkimageCode(a).value in ["arm", "arm64", "x86", "x86_64"]
    ensures VbootCode(a).Some? ==> VbootCode(a).value in ["arm", "aarch64", "x86", "amd64"]
    ensures ArchEq(a, ArchValue(b)) ==> MkimageCode(a) == MkimageCode(b) && VbootCode(a) == VbootCode(b)
  {
    SameGroupCases(a, b);
  }

  // ---------------------------------------------------------------------------
  // Names of (de)compressed siblings: Path.gunzip, Path.lz4, Path.lzma.
  // Only the file name is modelled; the directory stays the same.
  // ---------------------------------------------------------------------------

  predicate EndsWith(s: string, suffix: string)
  {
    |suffix| <= |s| && s[|s| - |suffix|..] == suffix
  }

  /**
   * Default destination of `gunzip`: strip ".gz", or else append ".gunzip".
   * Names are the file's last path component; for a file called exactly
   * ".gz" the result "" stands for no component, i.e. the parent directory.
   */
  function GunzipName(name: string, dest: Option<string>): (r: string)
    ensures dest.Some? ==> r == dest.value
    ensures dest.None? ==> r != name
    ensures dest.None? && EndsWith(name, ".gz") ==> r + ".gz" == name
    ensures dest.None? && !EndsWith(name, ".gz") ==> r == name + ".gunzip"
  {
    if dest.Some? then dest.value
    else if EndsWith(name, ".gz") then name[..|name| - 3]
    else name + ".gunzip"
  }

  function Lz4Name(name: string, dest: Option<string>): (r: string)
    ensures dest.Some? ==> r == dest.value
    ensures dest.None? ==> r == name + ".lz4" && r != name
  {
    if dest.Some? then dest.value else name + ".lz4"
  }

  function LzmaName(name: string, dest: Option<string>): (r: string)
    ensures dest.Some? ==> r == dest.value
    ensures dest.None? ==> r == name + ".lzma" && r != name
  {
    if dest.Some? then dest.value else name + ".lzma"
  }

  /** gunzip's default name undoes gzip's naming, and names without ".gz" get the ".gunzip" suffix. */
  lemma GunzipNameInverts(name: string)
    ensures GunzipName(name + ".gz", None) == name
    ensures !EndsWith(name, ".gz") ==> GunzipName(name, None) == name + ".gunzip"
  {
    assert (name + ".gz")[|name + ".gz"| - 3..] == ".gz";
  }

  // ---------------------------------------------------------------------------
  // File-name heuristics: Path.is_vmlinuz, is_initramfs, is_dtb.
  // ---------------------------------------------------------------------------

  function IsVmlinuzName(name: string): bool
  {
    Contains(name, "vmlinuz") || Contains(name, "vmlinux") || Contains(name, "linux")
    || Contains(name, "Image") || Contains(name, "kernel")
  }

  function IsInitramfsName(name: string): bool
  {
    Contains(name, "initrd") || Contains(name, "initramfs") || Contains(name, "cpio")
  }

  function IsDtbName(name: string): bool
  {
    Contains(name, "dtb")
  }

  /** The heuristics are plain substring tests; the "vmlinux" test is subsumed by "linux". */
  lemma NameHeuristics(name: string)
    ensures IsDtbName(name) <==> HasSubstring(name, "dtb")
    ensures IsInitramfsName(name) <==>
      HasSubstring(name, "initrd") || HasSubstring(name, "initramfs") || HasSubstring(name, "cpio")
    ensures IsVmlinuzName(name) <==>
      HasSubstring(name, "vmlinuz") || HasSubstring(name, "linux") || HasSubstring(name, "Image") || HasSubstring(name, "kernel")
  {
    ContainsIsSubstring(name, "dtb");
    ContainsIsSubstring(name, "initrd");
    ContainsIsSubstring(name, "initramfs");
    ContainsIsSubstring(name, "cpio");
    ContainsIsSubstring(name, "vmlinuz");
    ContainsIsSubstring(name, "vmlinux");
    ContainsIsSubstring(name, "linux");
    ContainsIsSubstring(name, "Image");
    ContainsIsSubstring(name, "kernel");
    if HasSubstring(name, "vmlinux") {
      var i :| OccursAt(name, "vmlinux", i);
      assert name[i + 2..i + 7] == name[i..i + 7][2..] == "linux";
      assert OccursAt(name, "linux", i + 2);
    }
  }

  // ---------------------------------------------------------------------------
  // GPT attributes: Partition.attributes.
  // ---------------------------------------------------------------------------

  datatype GptAttributes = GptAttributes(priority: int, tries: int, successful: int)

  /**
   * Decode the attribute word. Python's `&` with a non-negative mask and
   * `>>` floor toward minus infinity, which is what Dafny's `%` and `/`
   * do for a positive divisor, so negative words decode as Python does.
   */
  function DecodeAttributes(attr: int): (r: GptAttributes)
    ensures 0 <= r.priority <= 15 && 0 <= r.tries <= 15 && 0 <= r.successful <= 1
  {
    GptAttributes(attr % 16, (attr / 16) % 16, (attr / 256) % 2)
  }

  /** The attribute word with these three fields, and every other bit clear. */
  function EncodeAttributes(a: GptAttributes): int
  {
    a.priority + 16 * a.tries + 256 * a.successful
  }

  /** Decoding keeps exactly the low nine bits; encoding in-range fields decodes back. */
  lemma AttributesRoundTrip(attr: int, a: GptAttributes)
    ensures EncodeAttributes(DecodeAttributes(attr)) == attr % 512
    ensures 0 <= a.priority <= 15 && 0 <= a.tries <= 15 && 0 <= a.successful <= 1 ==>
      DecodeAttributes(EncodeAttributes(a)) == a
  {
    var d := DecodeAttributes(attr);
    var m := attr % 512;
    assert attr == 512 * (attr / 512) + m;
    assert attr / 16 == 32 * (attr / 512) + m / 16;
    assert attr / 256 == 2 * (attr / 512) + m / 256;
    assert attr % 16 == m % 16;
    assert (attr / 16) % 16 == (m / 16) % 16;
    assert (attr / 256) % 2 == m / 256;
    assert m == m % 16 + 16 * ((m / 16) % 16) + 256 * (m / 256);
    if 0 <= a.priority <= 15 && 0 <= a.tries <= 15 && 0 <= a.successful <= 1 {
      var w := EncodeAttributes(a);
      assert w / 16 == a.tries + 16 * a.successful;
      assert w / 256 == a.successful;
    }
  }

  // ---------------------------------------------------------------------------
  // Partitions: the name of partition `partno` of a disk, and the parse of
  // such a name back into disk and number.
  // ---------------------------------------------------------------------------

  datatype PartitionError = NoPartitionNumber | NotPositive(partno: int) | EmptyDiskName

  function DigitChar(d: nat): char
    requires d < 10
  {
    "0123456789"[d]
  }

  /** `str(n)` for a natural number. */
  function Decimal(n: nat): (s: string)
    ensures |s| >= 1
    ensures forall i :: 0 <= i < |s| ==> IsAsciiDigit(s[i])
    ensures |s| == 1 || s[0] != '0'
    ensures n > 0 ==> s[0] != '0'
    decreases n
  {
    if n < 10 then [DigitChar(n)] else Decimal(n / 10) + [DigitChar(n % 10)]
  }

  function DigitValue(c: char): nat
    requires IsAsciiDigit(c)
  {
    c as int - '0' as int
  }

  /** `int(s)` for a string of ASCII digits. */
  function DecimalValue(s: string): nat
    requires forall i :: 0 <= i < |s| ==> IsAsciiDigit(s[i])
  {
    if s == [] then 0
    else 10 * DecimalValue(s[..|s| - 1]) + DigitValue(s[|s| - 1])
  }

  lemma {:induction false} DecimalRoundTrip(n: nat)
    ensures DecimalValue(Decimal(n)) == n
    decreases n
  {
    if n >= 10 {
      var s := Decimal(n);
      assert s[..|s| - 1] == Decimal(n / 10);
      DecimalRoundTrip(n / 10);
    }
  }

  /**
   * `Partition(disk, partno)`: partno must be a positive int, and the
   * partition's name is the disk name, then "p" if that name ends in a
   * digit, then the number.
   */
  function PartitionName(diskName: string, partno: Option<int>): (r: Result<string, PartitionError>)
    ensures partno.None? ==> r == Err(NoPartitionNumber)
    ensures partno.Some? && partno.value <= 0 ==> r == Err(NotPositive(partno.value))
    ensures partno.Some? && partno.value > 0 && diskName == [] ==> r == Err(EmptyDiskName)
    ensures r.Ok? <==> partno.Some? && partno.value > 0 && diskName != []
    ensures r.Ok? && IsAsciiDigit(diskName[|diskName| - 1]) ==> r.value == diskName + "p" + Decimal(partno.value)
    ensures r.Ok? && !IsAsciiDigit(diskName[|diskName| - 1]) ==> r.value == diskName + Decimal(partno.value)
  {
    if partno.None? then Err(NoPartitionNumber)
    else if partno.value <= 0 then Err(NotPositive(partno.value))
    else if diskName == [] then Err(EmptyDiskName)
    else
      var sep := if IsAsciiDigit(diskName[|diskName| - 1]) then "p" else "";
      Ok(diskName + sep + Decimal(partno.value))
  }

  /** Length of the longest all-digit suffix. */
  function TrailingDigits(s: string): (d: nat)
    ensures d <= |s|
    ensures forall i :: |s| - d <= i < |s| ==> IsAsciiDigit(s[i])
    ensures d < |s| ==> !IsAsciiDigit(s[|s| - d - 1])
  {
    if s == [] || !IsAsciiDigit(s[|s| - 1]) then 0 else 1 + TrailingDigits(s[..|s| - 1])
  }

  /**
   * How a partition path name is split into disk name and number: first
   * by the pattern `(.*[0-9])p([0-9]+)`, then by `(.*[^0-9])([0-9]+)`.
   * Both groups of digits must run to the end of the name, so each
   * pattern can match in one place only: just before the trailing digits.
   */
  function ParsePartitionName(name: string): Option<(string, nat)>
  {
    var d := TrailingDigits(name);
    var k := |name| - d;
    if d == 0 then None
    else if k >= 2 && name[k - 1] == 'p' && IsAsciiDigit(name[k - 2]) then
      Some((name[..k - 1], DecimalValue(name[k..])))
    else if k >= 1 then Some((name[..k], DecimalValue(name[k..])))
    else None
  }

  lemma {:induction false} TrailingDigitsAppend(a: string, b: string)
    requires a != [] && !IsAsciiDigit(a[|a| - 1])
    requires forall i :: 0 <= i < |b| ==> IsAsciiDigit(b[i])
    ensures TrailingDigits(a + b) == |b|
    decreases |b|
  {
    if b == [] {
      assert a + b == a;
    } else {
      assert (a + b)[..|a + b| - 1] == a + b[..|b| - 1];
      TrailingDigitsAppend(a, b[..|b| - 1]);
    }
  }

  /**
   * The name given to a partition parses back to its disk and number,
   * unless the disk name itself ends in a digit followed by "p" (then the
   * first pattern claims that "p" as the separator).
   */
  lemma PartitionNameRoundTrip(diskName: string, partno: int)
    requires PartitionName(diskName, Some(partno)).Ok?
    requires !(|diskName| >= 2 && diskName[|diskName| - 1] == 'p' && IsAsciiDigit(diskName[|diskName| - 2]))
    ensures ParsePartitionName(PartitionName(diskName, Some(partno)).value) == Some((diskName, partno))
  {
    var digits := Decimal(partno);
    var name := PartitionName(diskName, Some(partno)).value;
    DecimalRoundTrip(partno);
    if IsAsciiDigit(diskName[|diskName| - 1]) {
      assert name == (diskName + "p") + digits;
      TrailingDigitsAppend(diskName + "p", digits);
      assert name[..|diskName|] == diskName;
      assert name[|diskName| + 1..] == digits;
    } else {
      TrailingDigitsAppend(diskName, digits);
      assert name[..|diskName|] == diskName;
      assert name[|diskName|..] == digits;
    }
  }

  // ---------------------------------------------------------------------------
  // SysDevTree: for each block device, the devices it sits on.
  // ---------------------------------------------------------------------------

  type Dev = string

  /** The parents recorded for `c`, empty when none (defaultdict(set) lookup). */
  function ParentsOf(g: map<Dev, set<Dev>>, c: Dev): set<Dev>
  {
    if c in g then g[c] else {}
  }

  /** A ghost ranking that witnesses that the device graph has no cycles. */
  ghost predicate Ranked(g: map<Dev, set<Dev>>, rank: map<Dev, nat>)
  {
    forall c :: c in g ==> c in rank && forall p :: p in g[c] ==> p in rank && rank[p] < rank[c]
  }

  ghost function Rank(rank: map<Dev, nat>, c: Dev): nat
  {
    if c in rank then rank[c] else 0
  }

  /** The devices without parents that `c` ultimately sits on (itself, if it has none). */
  ghost function LeavesFrom(g: map<Dev, set<Dev>>, rank: map<Dev, nat>, c: Dev): set<Dev>
    requires Ranked(g, rank)
    decreases Rank(rank, c)
  {
    if c !in g then {c}
    else set p, l | p in g[c] && l in LeavesFrom(g, rank, p) :: l
  }

  ghost function LeavesFromAll(g: map<Dev, set<Dev>>, rank: map<Dev, nat>, cs: seq<Dev>): set<Dev>
    requires Ranked(g, rank)
  {
    if cs == [] then {} else LeavesFrom(g, rank, cs[0]) + LeavesFromAll(g, rank, cs[1..])
  }

  lemma {:induction false} LeavesFromAllConcat(g: map<Dev, set<Dev>>, rank: map<Dev, nat>, a: seq<Dev>, b: seq<Dev>)
    requires Ranked(g, rank)
    ensures LeavesFromAll(g, rank, a + b) == LeavesFromAll(g, rank, a) + LeavesFromAll(g, rank, b)
    decreases |a|
  {
    if a == [] {
      assert a + b == b;
    } else {
      assert (a + b)[1..] == a[1..] + b;
      LeavesFromAllConcat(g, rank, a[1..], b);
    }
  }

  lemma {:induction false} LeavesFromAllMember(g: map<Dev, set<Dev>>, rank: map<Dev, nat>, s: seq<Dev>, l: Dev)
    requires Ranked(g, rank)
    ensures l in LeavesFromAll(g, rank, s) <==> exists i :: 0 <= i < |s| && l in LeavesFrom(g, rank, s[i])
    decreases |s|
  {
    if s != [] {
      LeavesFromAllMember(g, rank, s[1..], l);
      if exists i :: 0 <= i < |s| && l in LeavesFrom(g, rank, s[i]) {
        var i :| 0 <= i < |s| && l in LeavesFrom(g, rank, s[i]);
        if i > 0 {
          assert s[1..][i - 1] == s[i];
        }
      }
      if exists i :: 0 <= i < |s[1..]| && l in LeavesFrom(g, rank, s[1..][i]) {
        var i :| 0 <= i < |s[1..]| && l in LeavesFrom(g, rank, s[1..][i]);
        assert s[i + 1] == s[1..][i];
      }
    }
  }

  /** Replacing a device by a listing of its parents keeps the leaves reached. */
  lemma LeavesOfParents(g: map<Dev, set<Dev>>, rank: map<Dev, nat>, c: Dev, s: seq<Dev>)
    requires Ranked(g, rank) && c in g
    requires forall x :: x in s <==> x in g[c]
    ensures LeavesFromAll(g, rank, s) == LeavesFrom(g, rank, c)
  {
    forall l | l in LeavesFromAll(g, rank, s)
      ensures l in LeavesFrom(g, rank, c)
    {
      LeavesFromAllMember(g, rank, s, l);
      var i :| 0 <= i < |s| && l in LeavesFrom(g, rank, s[i]);
      assert s[i] in g[c];
    }
    forall l | l in LeavesFrom(g, rank, c)
      ensures l in LeavesFromAll(g, rank, s)
    {
      var p :| p in g[c] && l in LeavesFrom(g, rank, p);
      assert p in s;
      var i :| 0 <= i < |s| && s[i] == p;
      LeavesFromAllMember(g, rank, s, l);
    }
  }

  function Power(b: nat, e: nat): (r: nat)
    ensures b >= 1 ==> r >= 1
  {
    if e == 0 then 1 else b * Power(b, e - 1)
  }

  lemma {:induction false} PowerMonotone(b: nat, e1: nat, e2: nat)
    requires b >= 1 && e1 <= e2
    ensures Power(b, e1) <= Power(b, e2)
    decreases e2
  {
    if e1 < e2 {
      PowerMonotone(b, e1, e2 - 1);
      assert Power(b, e2) == b * Power(b, e2 - 1) >= Power(b, e2 - 1);
    }
  }

  /** Termination measure of the worklist: each device weighs fanout^rank. */
  ghost function Weight(rank: map<Dev, nat>, fanout: nat, cs: seq<Dev>): nat
  {
    if cs == [] then 0 else Power(fanout, Rank(rank, cs[0])) + Weight(rank, fanout, cs[1..])
  }

  lemma {:induction false} WeightConcat(rank: map<Dev, nat>, fanout: nat, a: seq<Dev>, b: seq<Dev>)
    ensures Weight(rank, fanout, a + b) == Weight(rank, fanout, a) + Weight(rank, fanout, b)
    decreases |a|
  {
    if a == [] {
      assert a + b == b;
    } else {
      assert (a + b)[1..] == a[1..] + b;
      WeightConcat(rank, fanout, a[1..], b);
    }
  }

  lemma {:induction false} WeightBound(rank: map<Dev, nat>, fanout: nat, s: seq<Dev>, r: nat)
    requires fanout >= 1
    requires forall i :: 0 <= i < |s| ==> Rank(rank, s[i]) <= r
    ensures Weight(rank, fanout, s) <= |s| * Power(fanout, r)
    decreases |s|
  {
    if s != [] {
      var pr := Power(fanout, r);
      PowerMonotone(fanout, Rank(rank, s[0]), r);
      assert forall i :: 0 <= i < |s[1..]| ==> s[1..][i] == s[i + 1];
      WeightBound(rank, fanout, s[1..], r);
      assert Weight(rank, fanout, s) == Power(fanout, Rank(rank, s[0])) + Weight(rank, fanout, s[1..]);
      assert |s| * pr == pr + (|s| - 1) * pr;
    }
  }

  /**
   * Appending the parents of `c` to a worklist: the leaves reached grow by
   * those of `c`, and the weight grows by less than `c` weighs.
   */
  lemma QueueParentsStep(g: map<Dev, set<Dev>>, rank: map<Dev, nat>, fanout: nat, c: Dev, rest: seq<Dev>, added: seq<Dev>)
    requires Ranked(g, rank) && c in g
    requires fanout >= 1 && |g[c]| < fanout
    requires forall x :: x in added <==> x in g[c]
    requires |added| == |g[c]|
    ensures LeavesFromAll(g, rank, rest + added) == LeavesFromAll(g, rank, rest) + LeavesFrom(g, rank, c)
    ensures Weight(rank, fanout, rest + added) < Power(fanout, Rank(rank, c)) + Weight(rank, fanout, rest)
  {
    LeavesFromAllConcat(g, rank, rest, added);
    LeavesOfParents(g, rank, c, added);
    WeightConcat(rank, fanout, rest, added);
    if added != [] {
      var r := rank[c];
      assert added[0] in g[c];
      forall i | 0 <= i < |added|
        ensures Rank(rank, added[i]) <= r - 1
      {
        assert added[i] in g[c];
      }
      WeightBound(rank, fanout, added, r - 1);
      assert Power(fanout, r) == fanout * Power(fanout, r - 1);
      MulLess(|added|, fanout, Power(fanout, r - 1));
    }
  }

  lemma MulLess(a: nat, b: nat, k: nat)
    requires a < b && k >= 1
    ensures a * k < b * k
  {
  }

  class SysDevTree {
    /** child device -> the devices it is built on */
    var parents: map<Dev, set<Dev>>

    /** An empty tree (the scan of /sys that fills it is not modelled). */
    constructor ()
      ensures parents == map[]
    {
      parents := map[];
    }

    ghost predicate NoSelfEdges()
      reads this
    {
      forall c :: c in parents ==> c !in parents[c]
    }

    /**
     * `add(child, parent)`: record the edge when both devices exist and
     * differ. Existence is a filesystem check, so it is a parameter here.
     */
    method Add(child: Dev, parent: Dev, childExists: bool, parentExists: bool)
      modifies this
      ensures childExists && parentExists && child != parent ==>
        parents == old(parents)[child := ParentsOf(old(parents), child) + {parent}]
      ensures !(childExists && parentExists && child != parent) ==> parents == old(parents)
      ensures old(NoSelfEdges()) ==> NoSelfEdges()
    {
      if childExists && parentExists {
        if child != parent {
          parents := parents[child := ParentsOf(parents, child) + {parent}];
        }
      }
    }

    /** `leaves()` without arguments: every recorded parent that is not itself a child. */
    method AllLeaves() returns (ls: set<Dev>)
      ensures forall l :: l in ls <==> l !in parents && exists c :: c in parents && l in parents[c]
    {
      ls := set c, p | c in parents && p in parents[c] :: p;
      ls := ls - parents.Keys;
    }

    /**
     * One step of `leaves`: append the parents of `c` to the rest of the
     * worklist. The leaves still to be reached are unchanged and the
     * worklist gets lighter.
     */
    method QueueParents(c: Dev, rest: seq<Dev>, ghost rank: map<Dev, nat>, ghost fanout: nat) returns (next: seq<Dev>)
      requires Ranked(parents, rank) && c in parents
      requires fanout >= 1 && forall d :: d in parents ==> |parents[d]| < fanout
      ensures |next| == |rest| + |parents[c]| && next[..|rest|] == rest
      ensures forall x :: x in next[|rest|..] <==> x in parents[c]
      ensures LeavesFromAll(parents, rank, next) == LeavesFromAll(parents, rank, rest) + LeavesFrom(parents, rank, c)
      ensures Weight(rank, fanout, next) < Power(fanout, Rank(rank, c)) + Weight(rank, fanout, rest)
    {
      var ps := parents[c];
      next := rest;
      ghost var added: seq<Dev> := [];
      while ps != {}
        invariant next == rest + added
        invariant ps <= parents[c]
        invariant forall x :: x in added <==> x in parents[c] && x !in ps
        invariant |added| + |ps| == |parents[c]|
        decreases ps
      {
        var p :| p in ps;
        next := next + [p];
        added := added + [p];
        ps := ps - {p};
      }
      assert next[|rest|..] == added;
      QueueParentsStep(parents, rank, fanout, c, rest, added);
    }

    /**
     * `leaves(*children)`: with no arguments, every leaf of the tree;
     * otherwise drain a worklist, replacing each device that has
     * parents by its parents (appended in the set's iteration order) and
     * collecting the ones that have none. The Python loop ends only on an
     * acyclic tree; `rank` witnesses that, and `fanout` bounds the number
     * of parents of one device.
     */
    method Leaves(children: seq<Dev>, ghost rank: map<Dev, nat>, ghost fanout: nat) returns (ls: set<Dev>)
      requires Ranked(parents, rank)
      requires fanout >= 1 && forall c :: c in parents ==> |parents[c]| < fanout
      ensures children == [] ==> forall l :: l in ls <==> l !in parents && exists c :: c in parents && l in parents[c]
      ensures children != [] ==> ls == LeavesFromAll(parents, rank, children)
      ensures forall l :: l in ls ==> l !in parents
    {
      if children == [] {
        ls := AllLeaves();
        return;
      }
      ls := {};
      var work := children;
      while work != []
        invariant ls + LeavesFromAll(parents, rank, work) == LeavesFromAll(parents, rank, children)
        invariant forall l :: l in ls ==> l !in parents
        decreases Weight(rank, fanout, work)
      {
        var c := work[0];
        var rest := work[1..];
        ghost var total := LeavesFromAll(parents, rank, work);
        ghost var weight := Weight(rank, fanout, work);
        assert total == LeavesFrom(parents, rank, c) + LeavesFromAll(parents, rank, rest);
        assert weight == Power(fanout, Rank(rank, c)) + Weight(rank, fanout, rest);
        if c in parents {
          var next := QueueParents(c, rest, rank, fanout);
          assert LeavesFromAll(parents, rank, next) == LeavesFromAll(parents, rank, rest) + LeavesFrom(parents, rank, c);
          work := next;
        } else {
          assert LeavesFrom(parents, rank, c) == {c};
          ls := ls + {c};
          work := rest;
        }
      }
    }
  }

  // ---------------------------------------------------------------------------
  // MixedArgumentsAction._set_value: put one positional value into a slot.
  // ---------------------------------------------------------------------------

  /** The `nargs` of a destination. */
  datatype Nargs = Single /* None */ | Optional /* "?" */ | Count(n: int) | Many /* "*", "+", ... */

  /** What a namespace attribute holds: None, one value, or a list of values. */
  datatype Slot = Empty | Scalar(value: string) | Values(values: seq<string>)

  datatype SetError =
    | UnknownDest            // KeyError: the destination has no nargs recorded
    | MissingAttribute       // getattr fails: the namespace lacks the attribute
    | Multiple(dest: string) // a single-valued destination is already set
    | TooMany(dest: string)  // a counted destination is past its count
    | NotAList(dest: string) // len(), append() or + on a value that does not support it (TypeError, AttributeError)

  /** The errors raised as `argparse.ArgumentError`, the only ones the caller's retry loop catches. */
  predicate IsArgumentError(e: SetError)
  {
    e.Multiple? || e.TooMany?
  }

  predicate IsSingleValued(nargs: Nargs)
  {
    nargs.Single? || nargs.Optional?
  }

  /** What `_set_value` turns the slot `current` into, or the error it raises. */
  function SetSlot(nargs: Nargs, dest: string, current: Slot, value: string): (r: Result<Slot, SetError>)
    ensures IsSingleValued(nargs) ==> (r.Ok? <==> current.Empty?)
    ensures nargs.Many? ==> (r.Ok? <==> !current.Scalar?)
    ensures nargs.Count? ==> (r.Ok? <==> current.Values? && |current.values| <= nargs.n)
    ensures nargs.Count? && r.Err? && current.Values? ==> r.error == TooMany(dest) && IsArgumentError(r.error)
    ensures IsSingleValued(nargs) && r.Ok? ==> r.value == Scalar(value)
    ensures !IsSingleValued(nargs) && r.Ok? ==> r.value.Values? && |r.value.values| >= 1
    ensures !IsSingleValued(nargs) && r.Ok? ==> r.value.values[|r.value.values| - 1] == value
    ensures !IsSingleValued(nargs) && r.Ok? && current.Values? ==> r.value.values[..|r.value.values| - 1] == current.values
    ensures !IsSingleValued(nargs) && r.Ok? && !current.Values? ==> r.value == Values([value])
  {
    match nargs
    case Single => if current.Empty? then Ok(Scalar(value)) else Err(Multiple(dest))
    case Optional => if current.Empty? then Ok(Scalar(value)) else Err(Multiple(dest))
    case Count(n) =>
      (match current
       case Empty => Err(NotAList(dest))
       case Scalar(s) => if |s| > n then Err(TooMany(dest)) else Err(NotAList(dest))
       case Values(vs) => if |vs| > n then Err(TooMany(dest)) else Ok(Values(vs + [value])))
    case Many =>
      (match current
       case Empty => Ok(Values([value]))
       case Scalar(_) => Err(NotAList(dest))
       case Values(vs) => Ok(Values(vs + [value])))
  }

  /**
   * `_set_value` exactly as written. For a counted destination holding a
   * list of more than n values, the error message is built from
   * `current + value`, a list plus a string, which raises TypeError before
   * the intended ArgumentError exists.
   */
  function SetSlotAsWritten(nargs: Nargs, dest: string, current: Slot, value: string): (r: Result<Slot, SetError>)
    ensures nargs.Count? && current.Values? && |current.values| > nargs.n ==> r == Err(NotAList(dest))
    ensures nargs.Count? && current.Values? && r.Err? ==> !IsArgumentError(r.error)
  {
    match nargs
    case Single => if current.Empty? then Ok(Scalar(value)) else Err(Multiple(dest))
    case Optional => if current.Empty? then Ok(Scalar(value)) else Err(Multiple(dest))
    case Count(n) =>
      (match current
       case Empty => Err(NotAList(dest))
       case Scalar(s) => if |s| > n then Err(TooMany(dest)) else Err(NotAList(dest))
       case Values(vs) => if |vs| > n then Err(NotAList(dest)) else Ok(Values(vs + [value])))
    case Many =>
      (match current
       case Empty => Ok(Values([value]))
       case Scalar(_) => Err(NotAList(dest))
       case Values(vs) => Ok(Values(vs + [value])))
  }

  /** The code as written and the corrected `SetSlot` differ exactly on an over-full counted list. */
  lemma SetSlotAsWrittenDiffers(nargs: Nargs, dest: string, current: Slot, value: string)
    ensures SetSlotAsWritten(nargs, dest, current, value) != SetSlot(nargs, dest, current, value)
      <==> nargs.Count? && current.Values? && |current.values| > nargs.n
  {
  }

  /** A "vmlinuz" destination with nargs 1 already holding two values: a TypeError, not the intended ArgumentError. */
  lemma SetSlotOverfullCounted()
    ensures SetSlotAsWritten(Count(1), "vmlinuz", Values(["a", "b"]), "c") == Err(NotAList("vmlinuz"))
    ensures SetSlot(Count(1), "vmlinuz", Values(["a", "b"]), "c") == Err(TooMany("vmlinuz"))
    ensures !IsArgumentError(NotAList("vmlinuz")) && IsArgumentError(TooMany("vmlinuz"))
  {
  }

  /** A counted destination accepts a value while it holds at most `n`, so it can end up with n + 1. */
  lemma CountedSlotBound(n: int, dest: string, current: Slot, value: string)
    requires SetSlot(Count(n), dest, current, value).Ok?
    ensures current.Values? && |current.values| <= n
    ensures |SetSlot(Count(n), dest, current, value).value.values| <= n + 1
  {
  }

  /** The parsed-arguments namespace: attribute name -> value. */
  class Namespace {
    var attrs: map<string, Slot>

    constructor (attrs: map<string, Slot>)
      ensures this.attrs == attrs
    {
      this.attrs := attrs;
    }
  }

  /** `_set_value(namespace, dest, value)`, with the action's nargs table. */
  method SetValue(ns: Namespace, nargsOf: map<string, Nargs>, dest: string, value: string) returns (r: Result<(), SetError>)
    modifies ns
    ensures dest !in nargsOf ==> r == Err(UnknownDest) && ns.attrs == old(ns.attrs)
    ensures dest in nargsOf && dest !in old(ns.attrs) ==> r == Err(MissingAttribute) && ns.attrs == old(ns.attrs)
    ensures dest in nargsOf && dest in old(ns.attrs) ==>
      match SetSlot(nargsOf[dest], dest, old(ns.attrs)[dest], value)
      case Ok(slot) => r == Ok(()) && ns.attrs == old(ns.attrs)[dest := slot]
      case Err(e) => r == Err(e) && ns.attrs == old(ns.attrs)
  {
    if dest !in nargsOf {
      return Err(UnknownDest);
    }
    if dest !in ns.attrs {
      return Err(MissingAttribute);
    }
    var next := SetSlot(nargsOf[dest], dest, ns.attrs[dest], value);
    if next.Err? {
      return Err(next.error);
    }
    ns.attrs := ns.attrs[dest := next.value];
    return Ok(());
  }
}
