# depthcharge-tools core, modelled in Dafny

depthcharge-tools builds kernel images that the ChromeOS bootloader
(depthcharge) boots, and manages the partitions holding them. This
project models three parts of it:

- **`mkdepthcharge`** takes a kernel, an optional ramdisk and device-tree
  blobs, plus command-line options, and packs them into a signed image.
  - A FIT image is built by `mkimage`.
  - A zImage is built by `vbutil_kernel`.
- **`depthchargectl build`** drives `mkdepthcharge` for one board. It
  normalises the kernel command line's `root=` argument, works out which
  compressions to try, and runs `mkdepthcharge` with each in turn until
  an image fits the board's maximum size.
- **`utils.py`** supplies the shared pieces used by the above.

Modules:

- `Common` (common.dfy): Option/Result, `" ".join`, substring tests,
  ASCII lower-casing.
- `Bytes` (bytes.dfy): octets, `startswith`, little-endian `struct`
  fields, Python slice bounds.
- `Utils` (utils.dfy):
  - `Architecture` equality and the tool codes;
  - default names for compressed and decompressed files;
  - the file-name heuristics;
  - GPT partition attributes;
  - partition names;
  - `SysDevTree` (a class over a map from a device to its parents; `add` and `leaves` as methods);
  - `MixedArgumentsAction._set_value` (a `Namespace` class whose attribute map the method updates).
- `Mkdepthcharge` (mkdepthcharge.dfy):
  - input classification by magic bytes (a loop proved against a function);
  - the choice of kernel, ramdisk and dtbs;
  - option defaults and checks;
  - the vboot command line.
- `ZImage` (zimage.dfy): the zImage-specific binary work.
  - Padding the bzImage is a method that grows an array.
  - The signed container is then located and patched. A method writes
    the ramdisk address and size into its boot parameters in place.
  - Both are proved against functions on the byte sequence.
- `Build` (build.dfy):
  - error codes;
  - `kernel_cmdline` normalisation (the loop is a method; its result is the function `Normalised`);
  - the compression list;
  - the size-fit loop of `__call__` (methods proved against the function `Drive`);
  - the copy to the output (`OutputFile`).

External programs are function-valued parameters:

- `mkdepthcharge`, as seen from the build driver, is `build: string -> Attempt`;
- `vbutil_kernel` is `sign: seq<byte> -> seq<byte>`.

Facts that come from the filesystem are values passed in: file heads,
sizes, existence, and the machine's architecture.

Facts about the code that shape the model:

- `Architecture` has four groups: arm 32/64 and x86 32/64. `__ne__` is
  not the negation of `__eq__` (see Findings).
- A zImage's ramdisk address is computed against the kernel's load
  address, `kernel_start`. The model fixes that at 0x100000.
- In the build loop, a failing `mkdepthcharge` run ends the whole build.
  The remaining compressions are not tried.
- `InitramfsSizeTooBigError` can be raised with no ramdisk at all. The
  up-front check compares a missing ramdisk's size, 0, with the board
  limit, so a zero limit raises it.
- `MixedArgumentsAction._set_value` formats its "more than n args"
  message from `current + value`. For a list that is a TypeError, not
  the intended `ArgumentError` (see Findings). The model's `SetValue`
  uses the corrected behaviour.
- Deduplication of the compression list keeps first occurrences
  (`sorted(set(l), key=l.index)`). It also applies to an explicitly
  requested list on a zImage board.

## Model

| member | source | states |
|---|---|---|
| Common.Join | depthcharge_tools/mkdepthcharge.py:430-435 | joining no parts gives "" and joining one part gives that part, as `" ".join` does |
| Common.ContainsIsSubstring | depthcharge_tools/utils.py:55-74 | the executable substring search answers true exactly when the text occurs somewhere in the name |
| Bytes.LeDecodeEncode | depthcharge_tools/mkdepthcharge.py:715-716 | unpacking a field packed little-endian with `struct.pack` gives back the value |
| Bytes.LeEncodeDecode | depthcharge_tools/mkdepthcharge.py:643-645 | every byte string is the packing of its unpacked value, which is below 256^width |
| Bytes.PyIndex | depthcharge_tools/mkdepthcharge.py:706 | a slice bound is normalised as Python does: negative bounds count from the end, then clamp into [0, n] |
| Bytes.PySlice | depthcharge_tools/mkdepthcharge.py:638 | a slice with in-range bounds is the plain subsequence, and no slice is longer than the data |
| Bytes.PySliceFull | depthcharge_tools/mkdepthcharge.py:682-691 | a fixed-width read is full length exactly when it lies inside the data; a short one makes `struct.unpack` fail |
| Utils.ArchNe | depthcharge_tools/utils.py:291-297 | the intended `!=` holds exactly when `==` does not: against an architecture, exactly when the names differ and are not in one group; against a plain string, exactly when the strings differ |
| Utils.ArchNeAsWrittenDisagrees | depthcharge_tools/utils.py:284-297 | "arm64" and Architecture("aarch64") are equal, and also unequal under `__ne__` as written, but not under the corrected one |
| Utils.ArchNeAsWrittenCharacterised | depthcharge_tools/utils.py:291-297 | `__ne__` as written is the intended inequality plus exactly the pairs of different names in one group |
| Utils.SameGroupCases | depthcharge_tools/utils.py:275-282 | two names share a group exactly when both are arm, arm64/aarch64, i386/x86 or x86_64/amd64 names |
| Utils.ArchEqIsEquivalence | depthcharge_tools/utils.py:284-289 | architecture equality is reflexive, symmetric and transitive |
| Utils.ArchCodes | depthcharge_tools/utils.py:299-318 | the mkimage and vboot codes exist exactly for the known names; each is one of the tool's four codes; equal architectures get the same codes |
| Utils.GunzipName | depthcharge_tools/utils.py:34-41 | a given destination is used as it is; otherwise ".gz" is stripped, or ".gunzip" appended to other names, so the target never overwrites the source |
| Utils.Lz4Name | depthcharge_tools/utils.py:43-47 | a given destination is used as it is; otherwise the target is the source name with ".lz4" appended |
| Utils.LzmaName | depthcharge_tools/utils.py:49-53 | a given destination is used as it is; otherwise the target is the source name with ".lzma" appended |
| Utils.GunzipNameInverts | depthcharge_tools/utils.py:34-53 | gunzip's default name undoes the ".gz" suffix, and other names get ".gunzip" |
| Utils.NameHeuristics | depthcharge_tools/utils.py:55-74 | each name heuristic holds exactly when the name contains one of its words; "vmlinux" is covered by "linux" |
| Utils.DecodeAttributes | depthcharge_tools/utils.py:249-255 | priority and tries are 4-bit values and successful is one bit, for any attribute word, negative ones included |
| Utils.AttributesRoundTrip | depthcharge_tools/utils.py:249-255 | decoding keeps exactly the low nine bits of the word, and in-range fields encode and decode back |
| Utils.Decimal | depthcharge_tools/utils.py:238-239 | a number's decimal text is non-empty, all digits, and has no leading zero (only 0 itself starts with "0") |
| Utils.DecimalRoundTrip | depthcharge_tools/utils.py:238-239 | reading back a number's decimal text gives the number |
| Utils.PartitionName | depthcharge_tools/utils.py:227-240 | a name is built exactly when the partition number is present and positive and the disk name is non-empty; otherwise the matching error; the name is the disk name, "p" exactly when that ends in a digit, then the number |
| Utils.TrailingDigits | depthcharge_tools/utils.py:215-218 | the count is the length of the longest all-digit suffix |
| Utils.PartitionNameRoundTrip | depthcharge_tools/utils.py:215-240 | the two regular expressions split a generated partition name back into its disk name and number, unless the disk name itself ends in digit+"p" |
| Utils.LeavesFromAllConcat | depthcharge_tools/utils.py:124-133 | the leaves reached from a worklist are the union over its parts |
| Utils.LeavesFromAllMember | depthcharge_tools/utils.py:124-133 | a device is a leaf of the worklist exactly when it is a leaf of one of its entries |
| Utils.LeavesOfParents | depthcharge_tools/utils.py:126-128 | the leaves of a device with parents are the leaves of its parents |
| Utils.QueueParentsStep | depthcharge_tools/utils.py:126-128 | queuing a device's parents keeps the leaves to be found, and the worklist's weight drops |
| Utils.SysDevTree.constructor | depthcharge_tools/utils.py:91-92 | a new tree records no edges |
| Utils.SysDevTree.Add | depthcharge_tools/utils.py:111-114 | an edge is recorded exactly when both devices exist and differ, adding the parent to the child's set; the tree has no self-edges afterwards |
| Utils.SysDevTree.AllLeaves | depthcharge_tools/utils.py:119-122 | with no arguments the leaves are the recorded parents that are not themselves children |
| Utils.SysDevTree.QueueParents | depthcharge_tools/utils.py:126-128 | the worklist gets exactly the device's parents appended, the leaves still to find are unchanged, and the weight drops |
| Utils.SysDevTree.Leaves | depthcharge_tools/utils.py:116-133 | with no devices given, the leaves are all recorded parents that are not children; otherwise the worklist loop ends and returns exactly the leaves reachable from the given devices; no leaf has parents |
| Utils.SetSlot | depthcharge_tools/utils.py:367-388 | corrected behaviour: a single-valued destination is set exactly when unset; a list destination accepts exactly when it is not a scalar; a counted one exactly when it holds a list of at most n values, and a list past the count is the "more than n" ArgumentError; an accepted value is appended after the earlier ones |
| Utils.SetSlotAsWritten | depthcharge_tools/utils.py:367-388 | as written, a counted list past its count raises a TypeError (not an ArgumentError), from the list + string in the message |
| Utils.SetSlotAsWrittenDiffers | depthcharge_tools/utils.py:379-382 | the code as written and the corrected behaviour differ exactly on a counted list holding more than n values |
| Utils.SetSlotOverfullCounted | depthcharge_tools/utils.py:379-382 | nargs 1 with two values held: a TypeError as written, the "more than n" ArgumentError once corrected |
| Utils.CountedSlotBound | depthcharge_tools/utils.py:379-382 | a counted destination accepts a value only while it holds at most n values, so it can end up with n+1 |
| Utils.SetValue | depthcharge_tools/utils.py:367-388 | an unknown destination or a missing attribute is an error; otherwise the namespace's slot becomes the new value, and an error leaves the namespace unchanged |
| Mkdepthcharge.Sniff | depthcharge_tools/mkdepthcharge.py:77-91 | corrected sniffing: MZ or ELF-magic heads are kernels, and it agrees with the code on every head not starting with 7f "ELF" |
| Mkdepthcharge.SniffCases | depthcharge_tools/mkdepthcharge.py:77-91 | a head is a kernel, ramdisk or device tree exactly when it starts with that kind's magic |
| Mkdepthcharge.ElfHeadMissed | depthcharge_tools/mkdepthcharge.py:78 | a real ELF header is not recognised as written, and is a kernel once corrected |
| Mkdepthcharge.PlaceAppends | depthcharge_tools/mkdepthcharge.py:77-99 | placing a file appends it to exactly one of the three lists |
| Mkdepthcharge.ClassifyFiles | depthcharge_tools/mkdepthcharge.py:58-105 | the loop over the input files, with the magic tests as written or corrected, produces the classification, and every file lands in exactly one list |
| Mkdepthcharge.ClassifyCounts | depthcharge_tools/mkdepthcharge.py:65-99 | the three lists together hold as many entries as there were files, with the magic tests as written or corrected |
| Mkdepthcharge.Paths | depthcharge_tools/mkdepthcharge.py:63 | the resolved paths of the inputs, one per file, in order |
| Mkdepthcharge.ClassifyKeepsOrder | depthcharge_tools/mkdepthcharge.py:65-99 | each list keeps the command-line order of the files it received, with the magic tests as written or corrected |
| Mkdepthcharge.ClassifyGrows | depthcharge_tools/mkdepthcharge.py:65-99 | later files only append: the lists for a prefix of the arguments are prefixes of the final lists, with the magic tests as written or corrected |
| Mkdepthcharge.ClassifyRoutesMagic | depthcharge_tools/mkdepthcharge.py:77-91 | a file with kernel, cpio or FDT magic ends up in the vmlinuz, initramfs or dtbs list, with the magic tests as written or corrected |
| Mkdepthcharge.ClassifyFallback | depthcharge_tools/mkdepthcharge.py:93-99 | an unrecognised file goes to the first empty list in usage order, and to dtbs when neither is empty, with the magic tests as written or corrected |
| Mkdepthcharge.ClassifyAllUnknown | depthcharge_tools/mkdepthcharge.py:93-99 | with nothing recognised, the first file is the kernel, the second the ramdisk, and the rest are dtbs, with the magic tests as written or corrected |
| Mkdepthcharge.ClassifyMultiset | depthcharge_tools/mkdepthcharge.py:58-99 | the three lists together hold exactly the input paths, as a multiset |
| Mkdepthcharge.ElfKernelSwapped | depthcharge_tools/mkdepthcharge.py:77-99 | as written, a zstd ramdisk and an ELF kernel given in that order are swapped; corrected, both are kernels |
| Mkdepthcharge.Candidates | depthcharge_tools/mkdepthcharge.py:111-114 | the explicit file, when given, is first and is followed by exactly the positional files of that kind; without it the candidates are those files |
| Mkdepthcharge.SelectVmlinuz | depthcharge_tools/mkdepthcharge.py:109-128 | no kernel and several kernels are refused exactly when there are zero or more than one candidates; otherwise the result is the only one |
| Mkdepthcharge.SelectInitramfs | depthcharge_tools/mkdepthcharge.py:132-149 | more than one ramdisk is refused; no candidate gives none; otherwise the result is the only one |
| Mkdepthcharge.SelectDtbs | depthcharge_tools/mkdepthcharge.py:153-162 | explicit device trees come first, then the positional ones, none dropped |
| Mkdepthcharge.SelectInputsUsesAll | depthcharge_tools/mkdepthcharge.py:58-162 | a successful selection, with either magic test, holds as a multiset exactly the explicit inputs plus the positional files: each used once, none dropped, none invented |
| Mkdepthcharge.SelectedParts | depthcharge_tools/mkdepthcharge.py:109-162 | the selected kernel, ramdisk and dtbs are, as a multiset, the explicit inputs plus the three classified lists |
| Mkdepthcharge.TwoKernelsRefused | depthcharge_tools/mkdepthcharge.py:77-124 | two files recognised as kernels, by either magic test, always make the build fail with the several-kernels error |
| Mkdepthcharge.TwoKernelsCounted | depthcharge_tools/mkdepthcharge.py:77-99 | two files sniffed as kernels put at least two entries in the kernel list |
| Mkdepthcharge.ResolveArch | depthcharge_tools/mkdepthcharge.py:238-252 | the machine's architecture is the default; a requested one is accepted exactly when it is a known name |
| Mkdepthcharge.ResolveFormat | depthcharge_tools/mkdepthcharge.py:256-273 | arm defaults to FIT and x86 to zImage; an unknown architecture with no format, or a format other than fit/zimage, is refused |
| Mkdepthcharge.ResolveCompress | depthcharge_tools/mkdepthcharge.py:281-294 | only none/lz4/lzma are accepted; FIT always gets an explicit compression, "none" by default |
| Mkdepthcharge.ResolveName | depthcharge_tools/mkdepthcharge.py:298-307 | a given description is kept; otherwise FIT images get one and zImages none |
| Mkdepthcharge.CheckOptions | depthcharge_tools/mkdepthcharge.py:165-180 | zImage refuses compression, then a name, then device trees, each error exactly when the earlier checks pass; FIT accepts them all |
| Mkdepthcharge.DefaultOptionsConsistent | depthcharge_tools/mkdepthcharge.py:165-307 | with default compression and name, the options clash only for a zImage given device trees |
| Mkdepthcharge.ResolvePad | depthcharge_tools/mkdepthcharge.py:318-326 | an explicit choice wins; by default padding is on exactly for a zImage with a ramdisk |
| Mkdepthcharge.Cmdline | depthcharge_tools/mkdepthcharge.py:425-444 | "kern_guid=%U " leads unless disabled, followed by the arguments joined by spaces, or by "--" when there are no arguments |
| Mkdepthcharge.CmdlineKeepsArguments | depthcharge_tools/mkdepthcharge.py:425-444 | every given argument appears in the final command line |
| ZImage.AddrOffsInverse | depthcharge_tools/mkdepthcharge.py:625-629 | converting a memory address to a file offset and back, either way round, is the identity |
| ZImage.AlignUp | depthcharge_tools/mkdepthcharge.py:631-632 | the result is the least multiple of 0x1000 not below the size |
| ZImage.Overwrite | depthcharge_tools/mkdepthcharge.py:715-716 | a same-length slice assignment puts the field at its place and leaves every other byte alone |
| ZImage.PadTarget | depthcharge_tools/mkdepthcharge.py:637-646 | a kernel without "HdrS" or too short for the header is refused; otherwise the target is the page-aligned end of the decompression area |
| ZImage.Padded | depthcharge_tools/mkdepthcharge.py:646-653 | the kernel is only zero-extended, and only when padding is on and the target is larger; it is then exactly the target size |
| ZImage.PadVmlinuz | depthcharge_tools/mkdepthcharge.py:637-653 | the kernel buffer after the header check and resize holds exactly the padded kernel |
| ZImage.Locate | depthcharge_tools/mkdepthcharge.py:673-711 | the container is located exactly when "CHROMEOS" leads, the keyblock size and the preamble's bootloader field are full 4-byte reads, and the derived boot params carry "HdrS"; the result records those offsets and addresses |
| ZImage.LocateExample | depthcharge_tools/mkdepthcharge.py:673-711 | a 0x220-byte container with a 0x20-byte keyblock and bootloader address 0xF1000 is located, with its boot params at offset 0 |
| ZImage.PatchExample | depthcharge_tools/mkdepthcharge.py:673-716 | the patch succeeds on that container, so the success lemmas below describe reachable outcomes |
| ZImage.Patch | depthcharge_tools/mkdepthcharge.py:673-716 | the patch never changes the file's length, and a failure before the first write changes nothing |
| ZImage.WriteLe32 | depthcharge_tools/mkdepthcharge.py:715-716 | writing a 4-byte field in place changes the buffer into its overwrite |
| ZImage.PatchSignedImage | depthcharge_tools/mkdepthcharge.py:673-716 | the in-place edit of the signed image has exactly the outcome and bytes of the patch |
| ZImage.RamdiskAddrIsBootloaderAddr | depthcharge_tools/mkdepthcharge.py:689-696 | with the body at 0x100000, the ramdisk address is the preamble's bootloader address, at the bootloader's file offset |
| ZImage.RamdiskAddrFits | depthcharge_tools/mkdepthcharge.py:689-696 | the ramdisk address is a valid unsigned 32-bit value |
| ZImage.PatchOk | depthcharge_tools/mkdepthcharge.py:705-716 | a successful patch reports the located container and writes the address and size into one 8-byte window |
| ZImage.ParamsMagic | depthcharge_tools/mkdepthcharge.py:705-711 | the patched block is one whose setup header carries "HdrS" |
| ZImage.PatchReadBack | depthcharge_tools/mkdepthcharge.py:715-716 | reading ramdisk_image and ramdisk_size back from the patched image gives the ramdisk's address and size |
| ZImage.PatchFrame | depthcharge_tools/mkdepthcharge.py:715-716 | only the eight bytes of the two fields change |
| ZImage.PatchAtParams | depthcharge_tools/mkdepthcharge.py:705-716 | for a block at a non-negative offset, the fields are at 0x218 and 0x21c from it, little-endian |
| ZImage.PatchKeepsMagic | depthcharge_tools/mkdepthcharge.py:705-716 | the boot params still carry "HdrS" after the patch |
| ZImage.ZImageWithRamdisk | depthcharge_tools/mkdepthcharge.py:619-716 | pad, sign, then patch: a padding error is reported, and otherwise the result is the patch of the signed padded kernel |
| Build.ReturnCode | depthcharge_tools/depthchargectl/_build.py:43-58 | exit status 4 for an image too big, and 3 when the ramdisk is to blame |
| Build.RemoveFirst | depthcharge_tools/depthchargectl/_build.py:373 | `list.remove` drops exactly one occurrence of the value |
| Build.RemoveFirstAt | depthcharge_tools/depthchargectl/_build.py:602 | `list.remove` takes out the first occurrence and keeps everything before and after it in order |
| Build.KeptMatches | depthcharge_tools/depthchargectl/_build.py:360-373 | every root entry that survives names the configured root |
| Build.DropOtherRoots | depthcharge_tools/depthchargectl/_build.py:358-374 | the loop removes exactly the root entries for other roots, and asks for a root= to be appended exactly when none names the configured root |
| Build.NormaliseCmdline | depthcharge_tools/depthchargectl/_build.py:351-399 | a root needing a ramdisk without one is refused; otherwise the result is the normalised command line |
| Build.RootEntryParses | depthcharge_tools/depthchargectl/_build.py:380 | the appended "root=X" is a root entry naming X |
| Build.NoinitrdIsNotRoot | depthcharge_tools/depthchargectl/_build.py:388 | "noinitrd" is not a root entry |
| Build.HasRootMember | depthcharge_tools/depthchargectl/_build.py:360-367 | a root is present exactly when some entry names the configured root |
| Build.KeptMember | depthcharge_tools/depthchargectl/_build.py:360-373 | an entry survives exactly when it is not a root entry, or names the configured root |
| Build.NormalisedRoot | depthcharge_tools/depthchargectl/_build.py:358-388 | afterwards every root entry names the root, a configured root is present, and it was appended exactly when it was missing |
| Build.NormalisedKeepsOthers | depthcharge_tools/depthchargectl/_build.py:360-388 | all non-root entries are kept in their order, and only "noinitrd" may follow them |
| Build.KeptIdempotent | depthcharge_tools/depthchargectl/_build.py:360-373 | dropping other roots a second time removes nothing more |
| Build.NormaliseIdempotent | depthcharge_tools/depthchargectl/_build.py:351-399 | normalising an already normalised command line again (not asking for "noinitrd") changes nothing |
| Build.FirstIndex | depthcharge_tools/depthchargectl/_build.py:426 | `list.index`: the first position holding the value |
| Build.Dedup | depthcharge_tools/depthchargectl/_build.py:426 | the result holds the same compressions with no repeats |
| Build.DedupFirstOccurrenceOrder | depthcharge_tools/depthchargectl/_build.py:426 | the result is ordered by each compression's first occurrence in the request |
| Build.DedupDistinct | depthcharge_tools/depthchargectl/_build.py:426 | a request without repeats is kept as it is |
| Build.FirstUnsupported | depthcharge_tools/depthchargectl/_build.py:408-413 | an unsupported compression is found exactly when the request names one |
| Build.CompressList | depthcharge_tools/depthchargectl/_build.py:401-426 | refused exactly when an unknown compression is requested; the list is supported, duplicate-free and, when explicit, the deduplicated request; the default always has "none" |
| Build.CompressDefaults | depthcharge_tools/depthchargectl/_build.py:415-424 | the default is "none", then lz4 and lzma as the board boots them; zImage boards get only "none" |
| Build.Candidates | depthcharge_tools/depthchargectl/_build.py:590-602 | when the inputs alone exceed the limit and "none" is listed, exactly its first occurrence is removed and the rest keep their order; otherwise the list is unchanged |
| Build.SizeFit | depthcharge_tools/depthchargectl/_build.py:578-643 | the driver's result and the compressions it ran are those of the specification `Drive` |
| Build.TryCompressions | depthcharge_tools/depthchargectl/_build.py:604-643 | the for/else loop has the outcome of trying each compression in order |
| Build.TryEachShape | depthcharge_tools/depthchargectl/_build.py:604-643 | the compressions tried are a prefix of the list, all but the last too big; a success is the last one and under the limit; a size error means all were too big |
| Build.LoopList | depthcharge_tools/depthchargectl/_build.py:590-604 | the loop only ever runs supported compressions |
| Build.DriveLoop | depthcharge_tools/depthchargectl/_build.py:578-643 | the driver either stops before the loop, for a ramdisk over the limit or an unsupported compression, or has the loop's outcome |
| Build.DriveFirstFit | depthcharge_tools/depthchargectl/_build.py:604-643 | a returned image is under the limit, was built with the last compression tried, and every earlier one gave an image too big |
| Build.DriveSizeError | depthcharge_tools/depthchargectl/_build.py:584-643 | the plain size error comes only without a ramdisk, after every compression was too big; the ramdisk error needs a ramdisk, or a zero limit before any try |
| Build.DriveRejectsRamdiskEarly | depthcharge_tools/depthchargectl/_build.py:578-588 | a ramdisk at or over the limit is refused before mkdepthcharge runs |
| Build.DriveSkipsNone | depthcharge_tools/depthchargectl/_build.py:590-602 | the uncompressed build is tried only when the inputs together fit the limit |
| Build.DriveExample | depthcharge_tools/depthchargectl/_build.py:590-643 | with images of 5, 3 and 2 MiB and a 4 MiB limit, lz4 is chosen although lzma is smaller |
| Build.OutputFile.constructor | depthcharge_tools/depthchargectl/_build.py:645-646 | the output starts with the given image |
| Build.BuildImage | depthcharge_tools/depthchargectl/_build.py:631-646 | the image is copied to the output only on success, and is then under the board's limit; on failure the output is unchanged |

## Left out

- Running external programs is not modelled. `mkimage`, `vbutil_kernel`, `gzip`, `lz4`, `lzma`, `cgpt` and `blockdev` become parameters or values (`build`, `sign`, the attribute word).
- File I/O and the filesystem are not modelled. Reading heads, `stat` sizes, `resolve()`, existence checks, temporary directories and `copy` become values passed in.
- Logging is not modelled.
- The gzip-head decompression before sniffing (mkdepthcharge.py:70-75) is left out. The head given to the model is the one sniffing sees.
- `kernel_start` is fixed at 0x100000, its default. The override option and its parsing are not modelled.
- The FIT build and the final re-signing step are opaque tool calls and are not modelled.
- The key search, signing-key options and board/config lookup of `depthchargectl` are not modelled.
- Root discovery and `root_requires_initramfs` are left out. The latter is a boolean parameter.
- The scan of `/sys` in `SysDevTree.__init__` is not modelled. The tree starts empty and is filled by `Add`.
- Utils.SysDevTree.Leaves: requires a ghost ranking of the devices (the tree is acyclic) and a bound on the parents per device. On a cyclic tree the Python loop does not end, and that case is not modelled.
- Utils.SysDevTree.QueueParents: set iteration order is a choice (`:|`). The contract states which parents are queued, not in which order.
- Partition path resolution and block-device checks are left out, as is the `Disk` class. Only the name built for a partition number and the split of a name by the two patterns are modelled.
- `Partition.size` is left out. It is a tool call.
- `Lower`, `IsAsciiDigit`: only ASCII case folding and ASCII digits are modelled. Python's `str.lower` and `str.isnumeric` also accept other Unicode letters and digits.
- Build.FirstUnsupported: the source means to raise ValueError naming the bad compression, but it formats an undefined name, so the exception actually raised is NameError. The model reports `UnsupportedCompression` with the bad name. Either way the build stops before anything runs.
- Aliasing is not modelled. `kernel_cmdline` and `__call__` mutate lists that other attributes share; the model works on copies of those values.
- ZImage.PadVmlinuz: returns a fresh array holding the padded kernel rather than resizing the mmap in place. The input buffer is unchanged.
- Build.ReturnCode: only the two size errors' exit statuses are stated. The others share the generic failure status.
- The command-line parsing of `MixedArgumentsAction.__call__` is not modelled. That is its retry over destinations and `parser.error`. Only `_set_value` is modelled.

## Findings

| source | as written | input that shows it | evidently intended | confidence | as-written member | corrected member |
|---|---|---|---|---|---|---|
| depthcharge_tools/mkdepthcharge.py:78 | an ELF file is detected by `head.startswith(b"ELF")`, but ELF files start with the byte 0x7f before "ELF" | a kernel file whose head is 7f 45 4c 46 02 01 is not recognised. Given after an unrecognised ramdisk, the two are swapped: the ramdisk becomes the kernel | detect `b"\x7fELF"` | not executed | Mkdepthcharge.ElfKernelSwapped | Mkdepthcharge.Sniff |
| depthcharge_tools/utils.py:291-297 | `__ne__` returns True as soon as `self` is in a group that `other` is not in, and otherwise compares the strings | Architecture("arm64") != Architecture("aarch64") is True, although `==` is also True | `__ne__` is the negation of `__eq__` | not executed | Utils.ArchNeAsWrittenDisagrees | Utils.ArchNe |
| depthcharge_tools/utils.py:379-382 | a counted destination past its count builds the message from `current + value`; for a list that is list + str | nargs 1, the destination already holds ["a", "b"], a third value arrives: TypeError escapes, and the caller's `except argparse.ArgumentError` does not catch it | raise the "Cannot have more than n args" ArgumentError | not executed | Utils.SetSlotAsWritten | Utils.SetSlot |
