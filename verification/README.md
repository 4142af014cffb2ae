# Verified models of libcpuid

libcpuid turns raw CPUID leaves or ARM identification registers into a description of the machine. This
project models the four parts of it that hold real algorithms and proves properties of them with Dafny:

- **the topology enumerator** (`Topology`, `CacheSharing`, `InstanceTable`, `Affinity`, `Enumeration`,
  `Partition`, `Grouping`, `Counting`, `IdentifyAll`, `RunConditions`, `Reports`, `RegisterIds`): the run of
  `cpu_identify_all` over all logical CPUs, which groups them into CPU types, sets affinity bits and counts
  cores and caches in 256-slot tables;
- **the raw dump** (`RawData`, `Scanning`, `DumpFormat`, `Aida64`, `Dump`, `RoundTrip`, `Aida64Reading`,
  `DumpText`, `ParseConditions`, `DumpLiterals`): the text written for raw data and the line-by-line parser that
  reads it back, with the AIDA64 dialect that is only read;
- **codename matching and name lists** (`Pattern`, `BrandText`, `Codename`, `NameLists`);
- **the ARM architecture level** (`ArmLevel`, `ArmFeatures`, `ReportedLevels`).

`Bits`, `Text`, `Collections` and `Options` hold what these share: binary digits and machine words, characters
and numerals, finite sets and first occurrences, values that may be missing.

Each algorithm that works step by step in C is a method over arrays, class fields or local variables and is
proved to compute a specification function; the lemmas then state what that function guarantees. Four modules
say it in the terms of a reader of registers, files and reports alone: `Reports` (every reported field, from the
records), `RegisterIds` (the IDs, by arithmetic on the registers), `DumpLiterals` (the lines of a dump as
literal text) and `ReportedLevels` (the ARM levels, by number). Machine
widths are explicit: 8-bit instance and feature counters, 16-bit slot counters and CPU numbers, 32-bit IDs
with conversion to `int32_t`, 64-bit `strtol`. `dafny verify dfyconfig.toml` checks the whole project.

What the C code leaves undefined is an outcome of its own, `Undefined`: an index outside a table, a 256th CPU
type, a write through a null record, a version string longer than its buffer. Methods require that the run
does not end there. `RunConditions.RawRunSucceedsIff` says of raw records when a run does not, and
`ParseConditions.TextUndefinedIff` of a text when its parse does. One read outside a table is left out of
this: when all four levels of leaf 0Bh are enumerated the loop conditions (libcpuid/cpuid_main.c:1207,1211)
read row 4 before they compare the subleaf with 4. Whatever that row holds, the comparison then ends the loop,
so the value cannot matter.

## Where the code and its documentation part

- `match_pattern` compares characters before it looks at their special meaning (libcpuid/libcpuid_util.c:189),
  so a `[` or `#` in the text matches a `[` or `#` of the pattern literally. The header comment
  (libcpuid/libcpuid_util.h:71-80) does not say so. `Pattern.DocumentedForAllTextsIff` gives the exact
  condition for a pattern.
- `affinity_mask_str_r` documents its length as the size of the buffer (libcpuid/libcpuid.h:1496-1503) and says
  nothing of its parity. The loop test leaves room for one character where two and a terminator are written:
  the terminator is inside the buffer if and only if the length is odd or the whole text is shorter than the
  buffer (`Affinity.TerminatorInsideIff`); for two characters it never is (`Affinity.TwoCharactersAreTooFew`).
  The static buffer of `affinity_mask_str` has 8193 characters and shows masks without CPUs from 32768 on
  (`Affinity.StaticBufferShowsIff`).
- `cache_mask` is written by subleaf number (libcpuid/libcpuid_util.c:441) and read by cache type
  (libcpuid/libcpuid_internal.h:36-43), so the counters at an index belong to the cache of that subleaf. They
  are those of the cache type for all sharing counts if and only if every known cache is in the subleaf with
  the number of its type (`CacheSharing.MasksAtTheirTypesIff`). With the data cache in subleaf 0 and the
  instruction cache in subleaf 1 the two masks, and with them the L1 counters, are exchanged
  (`CacheSharing.FirstLevelMasksExchanged`). Everything said about tables and counters below is by table index.
- `update_core_instances` and `update_cache_instances` take a remainder of a signed ID as an unsigned index
  (libcpuid/cpuid_main.c:1653,1680). The core ID stays -1 in an Intel or AMD record whose leaf 0Bh enumerates
  no core level, and the table is left; on ARM and with a core level it never is
  (`RunConditions.CoreSlotIff`, with the record `RunConditions.SmtOnlyRecord` as an instance). The ID of a cache
  shared by n logical CPUs gives a slot if and only if the APIC ID is below 2^31 or, modulo 256, below the
  power of two at or above n (`RunConditions.SharedCacheSlotIff`).
- The parser checks the index of a leaf row, but not that of an ARM register (libcpuid/cpuid_main.c:851-895) nor
  an AIDA64 subleaf (libcpuid/cpuid_main.c:932-943), nor that there is a current record.
  `ParseConditions.LineUndefinedIff` lists all the lines it is not defined for.
- The AIDA64 formats read a subleaf with `%02i` (libcpuid/cpuid_main.c:916,918), which takes 08 and 09 for octal
  numerals that end before the digit. Such a line counts as one of subleaf 0 and also writes the row of its
  leaf; of the subleaves 1 to 99 exactly these two do (`Aida64.LeafOverwrittenIff`).
- A mandatory ARM feature is counted as present only if it also has an optional level
  (libcpuid/recog_arm.c:588-594), while a level is documented to include all of its mandatory features
  (libcpuid/recog_arm.c:561). The two agree for a table of features if and only if each one that is mandatory from
  the level also has an optional level (`ArmLevel.PassesAsDocumentedIff`; `ArmLevel.MandatoryOnlyFails` is an
  instance). All rows of the library's table have one, so none is affected.
- An Armv9.0 implementation is documented to be Armv8.5 compliant (libcpuid/recog_arm.c:534). The search does not
  ask for it: an Armv9-A level is reported if and only if Armv9.0 itself passes (`ArmLevel.V9ReportedIff`,
  `ArmLevel.V9WithoutV8`). The chain ends at Armv9.4 (libcpuid/recog_arm.c:541-548), so that Armv9.5
  (libcpuid/libcpuid.h:248) is never reported, although four rows of the table are mandatory from it
  (`ArmLevel.SearchEndsAtV94`).
- The reported ARM level can fall when more features are present, when the Armv9-A chain is entered and its
  first level fails. `ArmLevel.MonotoneIff` gives the exact condition, `ArmLevel.LevelCanFall` an instance;
  `ArmLevel.MonotoneWithoutV9Mandatory` shows that the table of the library, which has no feature mandatory
  from Armv9.0, is not affected.
- A dump of a single ARM record cannot be read through the array entry point: its first register is written
  through no record (`RoundTrip.SingleThroughArray`). A dump of an array can be read through the single entry
  point, which keeps the last record only (`RoundTrip.ArrayThroughSingle`).
- The instance counters wrap: they are exact only for fewer than 256 IDs that are distinct modulo 256
  (`InstanceTable.ExactCount`), and a table with all 256 slots occupied reports 0
  (`InstanceTable.CounterIsZeroIff`). A slot counter does not wrap in `cpu_identify_all`, because `num_raw` has 16
  bits; `InstanceTable.SlotCounterWraps` only shows that the bound on the number of updates is needed.

## Assumptions

- Allocations succeed. The vendor decoders are parameters: the purpose of a record and what
  `cpu_ident_internal` makes of it are functions of the record.
- What module `Grouping` says of labels and types holds if the purpose found by `cpu_ident_internal` is the one
  that `cpu_ident_purpose` looks records up by; the two are computed in different places
  (libcpuid/cpuid_main.c:1615-1641 and libcpuid/recog_amd.c:628). `Grouping.FoundAgainIff` shows that the
  condition is needed. The partition, the counters and the conditions for a run to succeed do not need it.
- The APIC ID is the same in all enumerated subleaves of leaf 0Bh, as its specification says
  (`Topology.OneApicId`).
- `printf` and `scanf` follow the C standard in the "C" locale; `PRIi16` prints a non-negative number in
  decimal, "0x" without a digit behind it is a matching failure, and the width in `%02i` is 2.
- The package ID of a CPU type made without topology is not set in C; the model has none there, and it is
  never compared, because the search by package is not used again once the topology is lost.
- Processors report at most five cache subleaves, since `cache_mask` is indexed by subleaf
  (libcpuid/libcpuid_util.c:441).

## Model

| member | source | states |
|---|---|---|
| Affinity.AffinityMask.SetBit | libcpuid/libcpuid_util.c:297-300 | the mask stands for its old set of CPUs with one more |
| Affinity.AffinityMask.ClearBit | libcpuid/libcpuid_util.c:307-310 | the mask stands for its old set of CPUs without one |
| Affinity.AffinityMask.GetBit | libcpuid/libcpuid_util.c:302-305 | tells whether a CPU is in the set |
| Affinity.AffinityMask.CopyFrom | libcpuid/libcpuid_util.c:292-295 | the mask stands for the set of another mask, which is unchanged |
| Affinity.AffinityMaskStr | libcpuid/cpuid_main.c:1929-1949 | for a buffer of any length: writes the hexadecimal text of the mask from the highest non-zero byte, at least four bytes, cut to whole pairs if the buffer is short, and a terminator behind it, which may be the cell behind the buffer; nothing further changes |
| Affinity.TerminatorInsideIff | libcpuid/cpuid_main.c:1935-1948 | the terminator is written inside the buffer if and only if its length is odd or the whole text is shorter than it |
| Affinity.TwoCharactersAreTooFew | libcpuid/cpuid_main.c:1935-1948 | for every mask the terminator of a buffer of two characters is written behind it |
| Affinity.StaticBufferShowsIff | libcpuid/cpuid_main.c:1951-1955 | the static buffer shows the whole mask if and only if it has no CPU from 32768 on |
| Affinity.TextDenotesMask | libcpuid/cpuid_main.c:1929-1949 | that text is a hexadecimal numeral whose value is the sum of bits[i] * 256^i over all bytes |
| Affinity.TextShowsCpu | libcpuid/cpuid_main.c:1929-1949 | bit c of the value of that text is set if and only if CPU c is in the mask, and the text has no other characters than 0 to 9 and A to F |
| InstanceTable.Instances.Update | libcpuid/cpuid_main.c:1648-1664 | the table and counter in memory follow the specification of one update, collision branch and 8- and 16-bit wrap-around included |
| InstanceTable.OccupiedAreResidues | libcpuid/cpuid_main.c:1648-1664 | after any run of at most 65535 updates the occupied slots are exactly the residues modulo 256 of the IDs seen, collisions included, and the counter is their number modulo 256 |
| InstanceTable.ExactCount | libcpuid/cpuid_main.c:1648-1664 | the counter is the number of distinct IDs if and only if there are at most 255 and they are distinct modulo 256 |
| InstanceTable.CounterIsZeroIff | libcpuid/cpuid_main.c:1655-1656 | the counter reads 0 if and only if there was no update or all 256 slots are occupied |
| InstanceTable.SlotCounterWraps | libcpuid/cpuid_main.c:1655-1658 | without the bound on the run length one ID alone is counted once per 65536 updates |
| Topology.IdentIdX86 | libcpuid/cpuid_main.c:1170-1235 | the two loops over leaf 0Bh compute the specified IDs, or none when the vendor or leaf does not support them |
| Topology.ScanResult | libcpuid/cpuid_main.c:1206-1228 | each ID comes from the last enumerated level of its type, with the masks of that level |
| Topology.CoreIdIff | libcpuid/cpuid_main.c:1206-1228 | the core ID is not negative if and only if a core level is enumerated, else it is -1 |
| Topology.IdsAreParts | libcpuid/cpuid_main.c:1206-1232 | with an SMT level before the core level the three IDs are three masked parts of the one APIC ID |
| Topology.PartsAddUpIff | libcpuid/cpuid_main.c:1211-1232 | the three parts add up to every APIC ID if and only if the SMT shift is at most the final shift |
| Topology.MasksDisjointIff | libcpuid/cpuid_main.c:1211-1232 | the three masks have no bit in common if and only if the SMT shift is at most the final shift |
| Topology.ApicDecomposition | libcpuid/cpuid_main.c:1206-1232 | smt_id, core_id and package_id are disjoint parts of apic_id and sum to it, as 32-bit words |
| Topology.TriplesDistinct | libcpuid/cpuid_main.c:1206-1232 | equal triples come from equal APIC IDs; with equal shifts, only from them |
| RegisterIds.VendorIff | libcpuid/cpuid_main.c:1062-1094 | the two vendors whose extended topology is read are those with "GenuineIntel" or "AuthenticAMD" in EBX, EDX, ECX of leaf 0, lowest byte first |
| RegisterIds.X86HasIdsIff | libcpuid/cpuid_main.c:1170-1235 | an x86 record has IDs if and only if it has one of these texts, at least 11 basic leaves, a non-zero 16-bit count in leaf 0Bh, and enumerates one to four levels of which the last has a type |
| RegisterIds.TwoLevelIds | libcpuid/cpuid_main.c:1206-1235 | with a thread level, a core level and shifts s <= c the IDs of APIC ID x are x % 2^s, x % 2^c - x % 2^s and x - x % 2^c |
| RegisterIds.ArmIds | libcpuid/cpuid_main.c:1237-1285 | an ARM record has IDs if and only if its affinity register is not 0; bit 30 gives core 0 without a package, bit 24 takes thread, core and package from the three low bytes, else core and package are the two low bytes |
| RegisterIds.ArmSameTypeIff | libcpuid/cpuid_main.c:1237-1285 | two ARM CPUs share a type if and only if they have one purpose and one package in that register |
| CacheSharing.GetCountOrder | libcpuid/libcpuid_util.c:313-344 | the bisection returns the ceiling of the base-2 logarithm, -1 for 0 |
| CacheSharing.CountOrderIsLeast | libcpuid/libcpuid_util.c:313-344 | that order k is the least with n <= 2^k, and 2^k < 2n |
| CacheSharing.CacheTypeIs | libcpuid/libcpuid_util.c:415-433 | the low byte of EAX tells the cache: 21h, 22h, 43h, 63h and 83h are L1 data, L1 instruction, L2, L3 and L4, any other is unknown, and a zero level or type ends the enumeration |
| CacheSharing.SharingMaskIs | libcpuid/libcpuid_util.c:434-441 | with n one more than bits 14 to 25 of EAX, the mask is 2^32 - 2^k for the k with n <= 2^k < 2n |
| CacheSharing.DecodeCacheMasks | libcpuid/libcpuid_util.c:405-444 | the masks by subleaf: every known cache up to the first null subleaf gets the sharing mask of its field, the others are left alone |
| CacheSharing.MasksAtTheirTypesIff | libcpuid/libcpuid_util.c:405-444 | whatever the sharing counts are, each index has the mask of the cache of that type, if and only if every known cache is enumerated in the subleaf with the number of its type |
| CacheSharing.FirstLevelMasksExchanged | libcpuid/libcpuid_util.c:415-418 | with the data cache in subleaf 0 and the instruction cache in subleaf 1 each of them has the mask of the other |
| CacheSharing.SameCacheIff | libcpuid/libcpuid_util.c:434-441 | for 1 to 4096 sharing CPUs two APIC IDs get the same cache ID if and only if they lie in the same aligned block of 2^k |
| CacheSharing.SlotsBound | libcpuid/cpuid_main.c:1679-1685 | a table fed through one sharing mask never occupies more than max(1, 2^(8-k)) slots |
| Enumeration.FallbackCoresIs | libcpuid/cpuid_main.c:1785-1787 | without topology the number of cores is the identified one if it divides the logical CPUs evenly, else the number of logical CPUs; no rounding matters |
| Partition.RunPartitions | libcpuid/cpuid_main.c:1730-1769 | for every run with affinity the masks of the types partition 0..num_raw-1, each count is the size of its mask and the counts sum to num_raw, also when the topology is lost part-way |
| Partition.NoEmptyType | libcpuid/cpuid_main.c:1743-1768 | no type is left without a logical CPU, so the final divisions are defined |
| Partition.ReportPartitions | libcpuid/cpuid_main.c:1771-1793 | the reported types still partition the logical CPUs, with exact counts and totals |
| Partition.FallbackCoresDivide | libcpuid/cpuid_main.c:1783-1788 | when the topology was lost the reported cores of a type are positive and divide its logical CPUs |
| Grouping.RunGroups | libcpuid/cpuid_main.c:1736-1757 | the types are the first occurrences of the labels of the logical CPUs, each with exactly the CPUs of its label, where a label is the (purpose, package) of a record, or from the loss of the topology on the first label with its purpose |
| Grouping.SameLabelIff | libcpuid/cpuid_main.c:548-565 | for every successful run two logical CPUs land in one type if and only if they have one label, no two types share a key, every type has a label that occurs, and types stand in order of first occurrence |
| Grouping.SameTypeIff | libcpuid/cpuid_main.c:548-565 | two logical CPUs before the loss of the topology land in one type if and only if they have the same (purpose, package) |
| Grouping.LostCpuLandsIff | libcpuid/cpuid_main.c:548-565 | from the loss of the topology on each logical CPU lands in a type if and only if it is the first one with its purpose |
| Grouping.FoundAgainIff | libcpuid/cpuid_main.c:1738-1754 | a new type is found again by the next record with its key if and only if the identified purpose is the one looked up |
| Grouping.RunMasks | libcpuid/cpuid_main.c:1745-1757 | the cache masks of a type are those of the first record with its label |
| Counting.RunTables | libcpuid/cpuid_main.c:1763-1767 | the tables of a type hold exactly the core and cache IDs of its own logical CPUs, up to the loss of the topology |
| Counting.TypeCounters | libcpuid/cpuid_main.c:1648-1691 | the core counter of a type and its cache counter at each index are the numbers of distinct residues of those IDs, on 8 bits |
| Counting.CoreCountExactIff | libcpuid/cpuid_main.c:1648-1664 | the core count of a type is exact if and only if it has at most 255 cores, distinct modulo 256 |
| Counting.RunUnion | libcpuid/cpuid_main.c:1763-1767 | after every step, at every index of the cache tables, the occupied slots of the machine-wide table are the union of those of the types |
| Counting.TotalsBounded | libcpuid/cpuid_main.c:1666-1691 | the grand total at an index of the cache tables is the number of slots any type uses there, on 8 bits; without wrap-around it lies between the largest count of a type and the sum of all |
| IdentifyAll.CacheInstances.Update | libcpuid/cpuid_main.c:1666-1691 | the five tables in memory follow the specification of one cache update |
| IdentifyAll.CpuType.Add | libcpuid/cpuid_main.c:1759-1768 | counting a logical CPU changes one type as specified: mask, count, cores and caches |
| IdentifyAll.Enumerator.FindIndex | libcpuid/cpuid_main.c:548-565 | returns the first type with the key, or with the purpose alone once the topology is lost |
| IdentifyAll.Enumerator.StepRecord | libcpuid/cpuid_main.c:1730-1769 | one iteration on the objects in memory is one step of the state machine, with its error result |
| IdentifyAll.Enumerator.Finish | libcpuid/cpuid_main.c:1771-1803 | the final loop and the grand totals give the report of the state machine |
| IdentifyAll.CpuIdentifyAll | libcpuid/cpuid_main.c:1699-1806 | the whole function, for every array of at most 65535 records, with or without affinity, ends with the report or the error of the specified run |
| Reports.ReportWithAffinity | libcpuid/cpuid_main.c:1699-1806 | every field of the report of every successful run with affinity, from the records: each type has the purpose identified in the record that made it and the CPUs counted for it; with the topology known, the cores and the caches at each index are the numbers of residues modulo 256 of their IDs, on 8 bits, and the totals those of the machine; after its loss, the cores are the identified ones if they divide the CPUs, and all cache fields and totals are -1 |
| Reports.ReportWithoutAffinity | libcpuid/cpuid_main.c:1699-1806 | without affinity a run succeeds if and only if it makes at most 255 types, each from a record that is identified; the types then have the cores and logical CPUs identified in those records, no affinity, cache fields of -1 and totals of 0 |
| RunConditions.RunSucceedsIff | libcpuid/cpuid_main.c:1730-1769 | for every run, whatever purposes are found: it ends successfully if and only if it makes at most 255 types, each from an identified record, and every core and cache ID up to the loss of the topology gives a slot of its table; with all records identified it never ends with an error |
| RunConditions.RunUndefinedIff | libcpuid/cpuid_main.c:1730-1769 | a run is outside what C defines if and only if, all logical CPUs before it having fitted, one makes a 256th type, or has a type and misses a slot |
| RunConditions.RunFailedIff | libcpuid/cpuid_main.c:1743-1757 | a run ends with an error if and only if, all logical CPUs before it having fitted, a record would make a type and is rejected with that error |
| RunConditions.RawRunSucceedsIff | libcpuid/cpuid_main.c:1643-1769 | both for raw records: the slots exist if and only if each x86 record has a core level and each masked APIC ID is below 2^31 or a multiple of 256 |
| RunConditions.TypesMadeAreLabels | libcpuid/cpuid_main.c:1736-1757 | when identified and looked-up purposes agree, the types made are the labels, in order of first occurrence |
| RunConditions.CoreSlotIff | libcpuid/cpuid_main.c:1653 | the core ID of a record with IDs gives a slot if and only if it is an ARM record or has a core level |
| RunConditions.CacheSlotIff | libcpuid/cpuid_main.c:1675-1680 | a cache ID gives a slot if and only if the mask is zero or the masked APIC ID, as a word, is below 2^31 or a multiple of 256 |
| RunConditions.SharedCacheSlotIff | libcpuid/cpuid_main.c:1679-1680 | with the mask of a cache shared by n logical CPUs, if and only if the APIC ID is below 2^31 or is, modulo 256, below 2^k |
| RunConditions.SmtOnlyRunUndefined | libcpuid/cpuid_main.c:1211-1225 | a run that begins with an Intel record with an SMT level and no core level leaves the table of cores |
| RunConditions.HighApicIdLeavesTable | libcpuid/cpuid_main.c:1679-1680 | the APIC ID 2^31 + 1 gives a private cache no slot |
| Scanning.IndexScanned | libcpuid/cpuid_main.c:824-845 | %d reads back every printed index |
| Scanning.HexScanned | libcpuid/cpuid_main.c:824-893 | %x reads back every register printed with leading zeros, also after a space |
| Scanning.NumberScanned | libcpuid/cpuid_main.c:817-895 | a decimal number with any white space and a sign before it is read as the nearest 64-bit signed value by %d, and modulo 2^64 or clamped by %u |
| Text.HexAt | libcpuid/cpuid_main.c:660-733 | digit i of a padded hexadecimal number is the numeral of its value at that place, all in lower or all in upper case |
| Text.DecimalIs | libcpuid/cpuid_main.c:664-733 | a printed index is the numeral of its tenth and its last digit, without a leading zero |
| DumpFormat.RowLineData | libcpuid/cpuid_main.c:824-847 | a line in the format of one of the eight tables, with any index of 31 bits, is understood as a row of that table if it has such a row, and by no other format |
| DumpFormat.RegisterLineData | libcpuid/cpuid_main.c:824-895 | a line in the format of an ARM register group, with any index of 31 bits, is understood as that register by the chain of 24 formats, never as another |
| DumpLiterals.TableLineMeans | libcpuid/cpuid_main.c:824-847 | the eight literal names: "basic_cpuid[i]=" to "amd_fn80000026h[i]=" with four registers are understood as row i of their tables, up to 32, 32, 8, 4, 4, 4, 4 and 4 rows, and as nothing beyond |
| DumpLiterals.SingleRegisterMeans | libcpuid/cpuid_main.c:848-856 | "arm_midr=", "arm_mpidr=" and "arm_revidr=" with 16 digits are understood as these registers |
| DumpLiterals.Register32Means | libcpuid/cpuid_main.c:857-871 | "arm_id_afr", "arm_id_dfr", "arm_id_isar", "arm_id_mmfr" and "arm_id_pfr" with an index and 8 digits are understood as these registers |
| DumpLiterals.Register64Means | libcpuid/cpuid_main.c:872-895 | the eight names "arm_id_aa64afr" to "arm_id_aa64zfr" with an index and 16 digits are understood as these registers |
| DumpLiterals.AnyHeaderParsed | libcpuid/cpuid_main.c:817-823 | the literal header of any logical CPU selects its record, with zeroed records added up to it and affinity set; that of 65535 leaves what C defines |
| DumpLiterals.HeaderMeansNothing | libcpuid/cpuid_main.c:817-898 | the single entry point ignores it |
| DumpLiterals.VersionMeans | libcpuid/cpuid_main.c:787-792 | "version=" with a word of up to seven characters is skipped in the header, a longer one leaves its buffer |
| DumpLiterals.EndsIff | libcpuid/cpuid_main.c:783-784 | a dump ends at a line if and only if it is eighty dashes |
| DumpLiterals.SingleDumpShows | libcpuid/cpuid_main.c:643-733 | the dump of one record is its version and, line by line, the 92 literal lines of the eight tables of an x86 record, the 42 of the registers of an ARM record, or nothing |
| DumpLiterals.ArrayDumpShows | libcpuid/cpuid_main.c:643-745 | the dump of an array has for each record, at a multiple of 94, 44 or 2 lines behind the version, an empty line, the literal header with its number and these lines |
| RoundTrip.HeaderLineParsed | libcpuid/cpuid_main.c:817-823 | the printed header of the next logical CPU makes its zeroed record and selects it |
| RoundTrip.FirstRowParsed | libcpuid/cpuid_main.c:793-803 | a first row before any header makes the one record of the array and is stored in it |
| RoundTrip.StoreData | libcpuid/cpuid_main.c:668-733 | storing the data a record prints in a zeroed record gives all eight tables, or all ARM registers |
| RoundTrip.ArrayRoundTrip | libcpuid/cpuid_main.c:643-949 | parsing the lines written for 1 to 65535 records restores their number, sets with_affinity and restores every row or register the architecture of the first record shows |
| RoundTrip.SingleRoundTrip | libcpuid/cpuid_main.c:1533-1537 | the single entry point restores the record a single dump was written for |
| RoundTrip.SingleThroughArray | libcpuid/cpuid_main.c:793-826 | the array entry point makes of a single x86 dump exactly one record without affinity, fails on an ARM dump and reads nothing from an unknown one |
| RoundTrip.ArrayThroughSingle | libcpuid/cpuid_main.c:817-949 | the single entry point ignores the headers of an array dump and restores what it shows of the last record |
| Aida64.LeafLineRead | libcpuid/cpuid_main.c:916-945 | a line of a leaf, in either of its two forms and with digits in either case, assigns the row of its leaf if it has no subleaf or subleaf 0, and the row of its subleaf in the table of its leaf, where 08 and 09 are read as 0 |
| Aida64.LeafOverwrittenIff | libcpuid/cpuid_main.c:916-929 | a line of a subleaf from 1 to 99 also writes the row of its leaf if and only if the subleaf is 8 or 9 |
| DumpLiterals.LeafLineMeans | libcpuid/cpuid_main.c:916-930 | the literal line of a leaf without a subleaf assigns the row of leaf 0h to 1Fh or 80000000h to 8000001Fh, else nothing |
| DumpLiterals.SubleafLineMeans | libcpuid/cpuid_main.c:916-943 | with a subleaf i, 08 and 09 standing for 0, it assigns row i of the table of its leaf, which is 4h, Bh, 12h, 14h, 8000001Dh or 80000026h, and the row of the leaf if i is 0 |
| DumpLiterals.MarkerIff | libcpuid/cpuid_main.c:804-808 | the five literal markers that tell a dump of AIDA64 |
| DumpLiterals.HeaderTextIs | libcpuid/cpuid_main.c:901-904 | the literal texts of the four header forms |
| Aida64Reading.HeaderTextScanned | libcpuid/cpuid_main.c:900-903 | each of the four header forms is read with its number, leading zeros included, and by no earlier form |
| Aida64Reading.CpuHeaderParsed | libcpuid/cpuid_main.c:900-914 | the header of the next logical CPU, in any of its four forms, makes its zeroed record and selects it, counted from the number of the first one |
| Aida64Reading.Aida64Parsed | libcpuid/cpuid_main.c:804-949 | under a marker that is no header, a dump of up to 65535 blocks with headers of any form gives one record for each, with exactly the rows of its lines stored in order, whatever number the first logical CPU has |
| Aida64Reading.Aida64ParsedByHeader | libcpuid/cpuid_main.c:804-949 | the same without such a line, when the first header is itself a marker |
| Aida64Reading.VersionsIsTitle | libcpuid/cpuid_main.c:804 | the first of the five markers is no header and assigns nothing |
| Aida64Reading.MarkerHeaders | libcpuid/cpuid_main.c:805-808 | the other four markers are headers: number 0 in two forms, 1 in the third, 000 with an affinity mask |
| DumpText.LinesOfJoin | libcpuid/cpuid_main.c:777-780 | reading a file in pieces of 99 characters gives back every written line of at most 98 characters |
| DumpText.NextLineIs | libcpuid/cpuid_main.c:777-780 | of any file the next line is read whole if it has at most 98 characters; of a longer one the first 99 characters are read as a line and the rest as further lines |
| DumpText.ArrayTextRoundTrip | libcpuid/cpuid_main.c:643-949 | the round trip from records to the text of a file and back, every printed line fitting the line buffer |
| DumpText.ArrayTextRestoredIff | libcpuid/cpuid_main.c:643-949 | parsing the text written for 1 to 65535 records gives exactly these records if and only if none holds data of the other architecture |
| DumpText.SingleTextRoundTrip | libcpuid/cpuid_main.c:643-949 | the same round trip for one record at both entry points |
| DumpText.ArrayTextThroughSingle | libcpuid/cpuid_main.c:643-949 | the text of an array dump read at the single entry point gives what it shows of the last record |
| DumpText.SerializeArray | libcpuid/cpuid_main.c:643-745 | the nested loops write exactly the specified text of the dump of an array |
| DumpText.SerializeOne | libcpuid/cpuid_main.c:643-745 | and of a single record |
| DumpText.RawDataArray.GrowTo | libcpuid/cpuid_main.c:567-584 | zeroed records are added up to a size taken modulo 65536; a smaller size changes nothing |
| DumpText.RawDataArray.Deserialize | libcpuid/cpuid_main.c:750-949 | for every text whose parse is defined, in either dialect, the records, the affinity flag and the result code are those of the specified parse |
| ParseConditions.LineUndefinedIff | libcpuid/cpuid_main.c:777-943 | a line is outside what C defines if and only if it is a version of more than 7 characters, a header of logical CPU 65535, or data without a current record or outside its group or table; there are never more than 65535 records |
| ParseConditions.TextUndefinedIff | libcpuid/cpuid_main.c:750-949 | the parse of a text is, if and only if one of its lines is so after the lines before it have been read |
| Pattern.XMatchEntry | libcpuid/libcpuid_util.c:185-200 | returns how many pattern characters one text character consumes, reading no further than the terminator |
| Pattern.MatchPattern | libcpuid/libcpuid_util.c:202-219 | returns one more than the least offset at which the pattern is consumed, or 0 if there is none |
| Pattern.ResultIgnoresCase | libcpuid/libcpuid_util.c:185-219 | the result is the same for two texts that differ only in the case of the letters A to Z |
| Pattern.CharacterMatchesIff | libcpuid/libcpuid_util.c:188-191 | one pattern character matches a text character if and only if they are the same but for case, it is a dot, or it is # and the other a digit |
| Pattern.ClassMatchesIff | libcpuid/libcpuid_util.c:188-199 | a class matches a character if and only if it lists it in either case and the character is not [, which only the opening bracket itself consumes |
| Pattern.ResultIsDocumented | libcpuid/libcpuid_util.h:71-80 | if text and pattern share no `[` and no `#`, the result is the documented one: the least offset from which the tokens accept the text without regard to case |
| Pattern.DocumentedForAllTextsIff | libcpuid/libcpuid_util.h:71-80 | the result is the documented one for all texts if and only if the pattern has no `[` and no `#` |
| BrandText.CollapseSpaces | libcpuid/libcpuid_util.c:232-252 | in place, every maximal run of white space becomes one space, nothing behind the new string changes, and the write position at each character read is the specified one |
| BrandText.CollapseNext | libcpuid/libcpuid_util.c:232-252 | a further character is kept if it is no space, tab, line feed, vertical tab, form feed or carriage return; such a one adds one space unless it follows another |
| BrandText.WritePositionsAre | libcpuid/libcpuid_util.c:232-252 | that position is the length of what the characters before it collapse to, and never ahead of the read position |
| BrandText.CollapseKeepsWords | libcpuid/libcpuid_util.c:232-252 | the words of the string are kept, in order |
| BrandText.CollapseFixedIff | libcpuid/libcpuid_util.c:232-252 | a string is left alone if and only if its white space is single spaces |
| BrandText.CollapseIdempotent | libcpuid/libcpuid_util.c:232-252 | doing it twice is doing it once |
| BrandText.RemoveSubstring | libcpuid/libcpuid_util.c:221-230 | in place, the first occurrence is cut out and the rest kept; a string without one is unchanged |
| BrandText.RemoveFirstIs | libcpuid/libcpuid_util.c:221-230 | if the substring occurs, the string is a, the substring and b with no earlier occurrence, and a and b remain; else it is unchanged |
| Codename.NormaliseBrand | libcpuid/libcpuid_util.c:104-110 | the brand string loses its first "CPU" and then its first "Processor", and its spaces are collapsed |
| Codename.NormalisedIs | libcpuid/libcpuid_util.c:104-110 | the literal substrings are "CPU" and then "Processor", each removed once, before the spaces are collapsed |
| Codename.ComputeScore | libcpuid/libcpuid_util.c:83-119 | the score is the sum of the weights of the matching non-negative fields and the bonus of a pattern found in that string |
| Codename.FieldWeights | libcpuid/libcpuid_util.c:83-102 | making one field negative lowers the score by exactly 2, or 1 for the two cache sizes, if the field was not negative and matched, and leaves it alone otherwise |
| Codename.PatternWeight | libcpuid/libcpuid_util.c:104-116 | an entry with all eight fields negative scores its pattern score if it has a pattern that is found, else 0 |
| Codename.CpuId.MatchCpuCodename | libcpuid/libcpuid_util.c:121-143 | for every non-empty table the codename and technology of the first entry with the greatest score are stored, and that score is returned |
| Codename.SteppingDecides | libcpuid/libcpuid_util.c:121-143 | of two entries equal up to a stepping that only the later one matches, the later scores 2 more and the earlier is not chosen |
| Codename.BestIsUnique | libcpuid/libcpuid_util.c:121-143 | only one index is such an entry |
| Codename.AddedEntryChosenIff | libcpuid/libcpuid_util.c:121-143 | an entry added to a table is chosen if and only if it scores more than the one chosen before |
| Codename.BonusIsDocumented | libcpuid/libcpuid_util.c:104-116 | for a brand string without `[` and `#` the bonus is given if and only if the documented pattern occurs in it |
| NameLists.CpuList.GenericGetCpuList | libcpuid/libcpuid_util.c:145-183 | the list is exactly the first occurrences of the known names, in table order, and never outgrows the table |
| NameLists.ListedIff | libcpuid/libcpuid_util.c:156-182 | a name is listed if and only if it is in the table and does not contain "Unknown" |
| NameLists.CpuList.GetListArm | libcpuid/recog_arm.c:2798-2848 | the list is extended by the known names of the parts that it does not have, keeps its old names as a prefix and never outgrows its room |
| NameLists.ExtendedHasNoDuplicates | libcpuid/recog_arm.c:2823-2847 | a list without duplicates stays without duplicates and holds exactly the old and the new names |
| NameLists.BothTables | libcpuid/recog_arm.c:2798-2848 | the list after both functions is that of the two tables as one |
| NameLists.MakeListFromString | libcpuid/cpuid_main.c:1137-1168 | the second pass fills exactly the room the first one counted, with the names between the commas |
| NameLists.JoinedSplit | libcpuid/cpuid_main.c:1137-1168 | joining the names with commas gives back the string, and no name has a comma |
| NameLists.SplitJoined | libcpuid/cpuid_main.c:1137-1168 | every list of names without commas is recovered from its joined form |
| NameLists.SplitCount | libcpuid/cpuid_main.c:1142-1143 | there is one name more than there are commas |
| ArmLevel.PresentAtMostTotal | libcpuid/recog_arm.c:577-598 | at each level the present features are at most the total, optional and mandatory |
| ArmLevel.PassesIffCompliant | libcpuid/recog_arm.c:557-570 | with fewer than 256 records a level, a level passes if and only if every record mandatory from it is present and has an optional level, or, without such records, some optional one is present |
| ArmLevel.PassesAsDocumentedIff | libcpuid/recog_arm.c:561-566 | for a table of features a level passes as documented, whichever of them are present, if and only if each one that is mandatory from the level also has an optional level |
| ArmLevel.MandatoryOnlyFails | libcpuid/recog_arm.c:577-598 | one present feature that is mandatory from a level and nowhere optional meets the documented rule and fails the level |
| ArmLevel.SearchedLevelIs | libcpuid/recog_arm.c:550-570 | the reported level ends the chain prefix of length n if and only if that is the longest prefix of levels the processor is compliant with |
| ArmLevel.V9ReportedIff | libcpuid/recog_arm.c:550-570 | an Armv9-A level is reported if and only if the processor is compliant with Armv9.0 |
| ArmLevel.V9WithoutV8 | libcpuid/recog_arm.c:528-570 | a processor without a mandatory feature of Armv8.0 can be reported as Armv9-A |
| ArmLevel.WrappedLevelPasses | libcpuid/recog_arm.c:577-582 | with 256 absent mandatory features the counter wraps and the level passes |
| ArmLevel.MonotoneIff | libcpuid/recog_arm.c:550-570 | with registers and records fixed, more present features lower the level if and only if no level is explicit, a first Armv9.0 feature appears, the processor was compliant with Armv8.0 and is not with Armv9.0 |
| ArmLevel.MonotoneWithoutV9Mandatory | libcpuid/recog_arm.c:550-570 | without a record mandatory from Armv9.0 more present features never lower the level |
| ArmLevel.LevelCanFall | libcpuid/recog_arm.c:550-570 | with such a record the level can fall from Armv8.0 to unknown |
| ArmFeatures.ArmStatus.SetFeatureStatus | libcpuid/recog_arm.c:577-598 | the 8-bit counters of all levels are those of the records with one more, and the flag is set if the feature is present |
| ArmFeatures.ArmStatus.MatchFields | libcpuid/recog_arm.c:602-621 | a feature is present if and only if the bits of some register, the AArch64 or the AArch32 one of a field by the mode, have the value of the field and no earlier field lacks its register |
| ArmFeatures.ArmStatus.LoadArmFeatures | libcpuid/recog_arm.c:2757-2759 | after the loop the counters are those of the records of all filled rows of the table, and the flags gain exactly their present features |
| ReportedLevels.RecordsAre | libcpuid/recog_arm.c:2757-2759 | a record is among them if and only if it is that of a row whose optional level is not 0 |
| ReportedLevels.AArch64Iff | libcpuid/recog_arm.c:411-414 | the mode is AArch64 if and only if the first register of one of five groups is not 0 |
| ArmFeatures.ArmStatus.DecodeByCpuid | libcpuid/recog_arm.c:454-575 | the level stored is the explicit one of the registers, else that of the chain search on the counters |
| ReportedLevels.StatedLevelIff | libcpuid/recog_arm.c:472-503 | one condition on the nibbles of six registers for each of the nine levels they state, by level number, and for the search |
| ReportedLevels.V9LevelIff | libcpuid/recog_arm.c:541-570 | the search finds Armv9.k-A, level 128 + k, if and only if the processor is compliant with Armv9.0 to Armv9.k and not with the next |
| ReportedLevels.V8LevelIff | libcpuid/recog_arm.c:514-570 | it finds Armv8.k-A, level 115, 118 or 118 + k, if and only if no feature of Armv9.0 is present and the processor is compliant with Armv8.0 to Armv8.k and not with the next |

## Left out

- DumpText.RawDataArray.Deserialize: states the result for texts whose parse is defined, which `ParseConditions.TextUndefinedIff` tells.
- DumpText.RawDataArray.Deserialize: the C function works on a file handle, the model on the whole text.
- IdentifyAll.CpuIdentifyAll: reads no raw data of its own when it is given none, and the CPU type and its internal record (`cpu_types` and `type_info`) are one object.
- The vendor decoders behind `cpu_ident_internal` and `cpu_ident_purpose`, the codename and part tables, the feature table contents and the `*_str` tables: data or single field reads, given as parameters.
- The ARM loaders with rules of their own (PAuth, MPAM, MTE4) and the level stated in MIDR: their calls of `set_feature_status` are covered as records, not where the records come from.
- The sizes, ways and line lengths decoded beside the cache masks, and the cache ID kept for debug output.
- `decode_architecture_version_x86`: it accepts a level on its last feature alone, so it promises nothing over whole levels.
- Operating-system affinity calls, `cpuid`, `mrs`, `rdtsc` and MSR access, kernel drivers, timing, the command-line tool and the bindings.
- Allocation failures, warnings and debug output.
