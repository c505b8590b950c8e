# Universe Genesis Seed — a verified Dafny model

The Universe Genesis Seed is the custodian of a simulation's master seed.
It holds either a 64-bit master or a 128-bit master (two 64-bit halves,
`high` and `low`). From that master it derives reproducible sub-seeds
for any `(context, identifier)` pair, using an FNV-1a style hash of the
context keyed by the master. It can also save its master as a hexadecimal
string and restore it from one.

The project has five modules:

- `SeedTypes` (seed_types.dfy): the 128-bit seed record, the three error
  kinds (`NotSet`, `WrongWidth`, `ParseError`) and a `Result` type.
- `Fnv` (fnv.dfy): the keyed hash. It is defined as a fold over the
  context bytes. The original's loop is a method proved equal to the fold.
  Each step is proved injective, from a left inverse of the FNV prime
  modulo 2^64 (0xce965057aff6957b); on the finite bv64 that makes it a
  bijection. So the hash never collides across seeds for a fixed context.
- `HexCodec` (hex.dfy): the zero-padded 16-digit lowercase rendering, and
  a model of `std::stoull(s, nullptr, 16)`. The parser skips leading C
  white space, then accepts an optional sign (a minus negates modulo 2^64)
  and an optional `0x`/`0X` prefix (a bare prefix reads as zero). It
  then reads the longest run of hex digits and ignores the rest. An empty
  run or a value of 2^64 or more fails.
- `Genesis` (universe_genesis_seed.dfy): the class
  `UniverseGenesisSeed`. It has the four fields of the original:
  `masterSeed64`, `masterSeed128`, `use128` and `seedSet`.
  `Mode()` is an abstract view (`Unset`, `Width64` or `Width128`).
  The derivations are stated as pure functions of that mode, and the
  lemmas prove what they promise:
  - a 64-bit derivation is injective in the identifier and in the base;
  - the halves of a 128-bit derivation differ exactly when the halves of
    the master differ, and in 64-bit mode they always differ because of
    the fallback salt;
  - an exported seed imports back to the same seed.
- `Scenarios` (scenarios.dfy): the unit tests' assertions, replayed on the
  model, each test on a fresh object (where a test clears and reuses its
  object), as postconditions of methods; `Derive128Distinct` also states
  that the two halves differ. Three scenarios of its own follow: how
  "12:zz" is read, a failed import that is not atomic, and clearing
  twice.

A thrown exception becomes an `Err` result carrying the matching error
kind. A context string is modelled as its bytes (`seq<bv8>`), as the hash
reads it through `static_cast<uint8_t>`.

Where the design description and the code differ, the model follows the
code:

- Exporting an unset object does not fail. It renders the stored 64-bit
  value, which is zero after construction or `clear`, as sixteen zeros.
- A failed import is not atomic. If the high field of a `high:low`
  string parses and the low field does not, the high half has already
  been stored, while the mode flags are unchanged.
- Setting a 64-bit master leaves the stored 128-bit value in place, and
  the reverse. The two values are separate fields rather than one tagged
  value; only the flags say which one is current.
- The design describes the parse as strict hex. The code's `stoull`
  accepts leading white space, a sign and a `0x` prefix, and ignores
  trailing characters; so "12zz" reads as 0x12 and "-1" as all ones.

## Model

| member | source | states |
|---|---|---|
| Fnv.Step | ProjectOdyssey_Prompts/01_Cosmic_Fabric_Engine/01_01_UniverseGenesisSeed_UGS/UniverseGenesisSeed.cpp:44-45 | one loop iteration: XOR the zero-extended byte into the accumulator, then multiply by the FNV prime modulo 2^64 (definition) |
| Fnv.Fold | ProjectOdyssey_Prompts/01_Cosmic_Fabric_Engine/01_01_UniverseGenesisSeed_UGS/UniverseGenesisSeed.cpp:43-46 | the loop over the context as a recursion: the steps applied to the bytes first to last (definition) |
| Fnv.Hash | ProjectOdyssey_Prompts/01_Cosmic_Fabric_Engine/01_01_UniverseGenesisSeed_UGS/UniverseGenesisSeed.cpp:41-48 | the recursive hash: the fold started at the offset basis XOR the seed (definition; Fnv1aHash is proved equal to it) |
| Fnv.Fnv1aHash | ProjectOdyssey_Prompts/01_Cosmic_Fabric_Engine/01_01_UniverseGenesisSeed_UGS/UniverseGenesisSeed.cpp:41-48 | the loop's accumulator ends equal to `Hash(s, seed)`, the fold of the bytes starting from the offset basis XOR the seed |
| Fnv.HashEmpty | ProjectOdyssey_Prompts/01_Cosmic_Fabric_Engine/01_01_UniverseGenesisSeed_UGS/UniverseGenesisSeed.cpp:42 | the hash of the empty context is 14695981039346656037 XOR the seed |
| Fnv.HashAppend | ProjectOdyssey_Prompts/01_Cosmic_Fabric_Engine/01_01_UniverseGenesisSeed_UGS/UniverseGenesisSeed.cpp:43-46 | appending byte c turns hash h into (h XOR c) * 1099511628211, wrapping at 64 bits |
| Fnv.FoldAppend | ProjectOdyssey_Prompts/01_Cosmic_Fabric_Engine/01_01_UniverseGenesisSeed_UGS/UniverseGenesisSeed.cpp:43-46 | folding a byte appended at the end is one more step after folding the prefix |
| Fnv.MulPrimeInvertible | ProjectOdyssey_Prompts/01_Cosmic_Fabric_Engine/01_01_UniverseGenesisSeed_UGS/UniverseGenesisSeed.cpp:45 | multiplying by the FNV prime modulo 2^64 is undone by multiplying by 0xce965057aff6957b |
| Fnv.MulPrimeInjective | ProjectOdyssey_Prompts/01_Cosmic_Fabric_Engine/01_01_UniverseGenesisSeed_UGS/UniverseGenesisSeed.cpp:45 | multiplying by the FNV prime modulo 2^64 is injective |
| Fnv.StepInjective | ProjectOdyssey_Prompts/01_Cosmic_Fabric_Engine/01_01_UniverseGenesisSeed_UGS/UniverseGenesisSeed.cpp:44-45 | one loop iteration (XOR a byte, multiply by the prime) is injective in the accumulator |
| Fnv.FoldInjective | ProjectOdyssey_Prompts/01_Cosmic_Fabric_Engine/01_01_UniverseGenesisSeed_UGS/UniverseGenesisSeed.cpp:43-46 | folding a fixed context is injective in the starting accumulator |
| Fnv.HashInjectiveInSeed | ProjectOdyssey_Prompts/01_Cosmic_Fabric_Engine/01_01_UniverseGenesisSeed_UGS/UniverseGenesisSeed.cpp:41-48 | for a fixed context, two seeds hash equal if and only if they are equal |
| HexCodec.HexChar | ProjectOdyssey_Prompts/01_Cosmic_Fabric_Engine/01_01_UniverseGenesisSeed_UGS/UniverseGenesisSeed.cpp:76-79 | each digit renders as a lowercase hex character whose value is that digit |
| HexCodec.Hex16 | ProjectOdyssey_Prompts/01_Cosmic_Fabric_Engine/01_01_UniverseGenesisSeed_UGS/UniverseGenesisSeed.cpp:79 | a 64-bit value renders as exactly 16 lowercase hex characters (setw(16), setfill('0')) |
| HexCodec.DigitsValue | ProjectOdyssey_Prompts/01_Cosmic_Fabric_Engine/01_01_UniverseGenesisSeed_UGS/UniverseGenesisSeed.cpp:76-79 | an n-digit rendering of a value below 16^n is all hex digits and reads back as that value |
| HexCodec.DigitsPadding | ProjectOdyssey_Prompts/01_Cosmic_Fabric_Engine/01_01_UniverseGenesisSeed_UGS/UniverseGenesisSeed.cpp:79 | a value below 16^k renders as leading zeros followed by its k-digit rendering |
| HexCodec.Hex16Zero | ProjectOdyssey_Prompts/01_Cosmic_Fabric_Engine/01_01_UniverseGenesisSeed_UGS/UniverseGenesisSeed.cpp:79 | zero renders as sixteen '0' characters |
| HexCodec.ParseMagnitude | ProjectOdyssey_Prompts/01_Cosmic_Fabric_Engine/01_01_UniverseGenesisSeed_UGS/UniverseGenesisSeed.cpp:95 | the prefix and digit phase of stoull: an optional 0x, then the longest hex run; an empty run or a value of 2^64 or more fails, and every failure is ParseError |
| HexCodec.ParseSigned | ProjectOdyssey_Prompts/01_Cosmic_Fabric_Engine/01_01_UniverseGenesisSeed_UGS/UniverseGenesisSeed.cpp:95 | the sign phase of stoull: a '+' is skipped, a '-' negates the magnitude modulo 2^64; every failure is ParseError |
| HexCodec.ParseHexField | ProjectOdyssey_Prompts/01_Cosmic_Fabric_Engine/01_01_UniverseGenesisSeed_UGS/UniverseGenesisSeed.cpp:95 | a stoull reading either gives a value or fails with ParseError, which covers both of its exceptions |
| HexCodec.ParseHex16 | ProjectOdyssey_Prompts/01_Cosmic_Fabric_Engine/01_01_UniverseGenesisSeed_UGS/UniverseGenesisSeed.cpp:95 | every 16-digit rendering parses back to the value rendered |
| HexCodec.ParseDigits | ProjectOdyssey_Prompts/01_Cosmic_Fabric_Engine/01_01_UniverseGenesisSeed_UGS/UniverseGenesisSeed.cpp:95 | a bare digit run parses to its value when the value is below 2^64 and fails otherwise, however many digits it has |
| HexCodec.ParseRejectsNonNumeric | ProjectOdyssey_Prompts/01_Cosmic_Fabric_Engine/01_01_UniverseGenesisSeed_UGS/UniverseGenesisSeed.cpp:95 | an empty field, or one whose first character is not white space, a sign or a digit, fails with ParseError |
| HexCodec.ParseIgnoresTail | ProjectOdyssey_Prompts/01_Cosmic_Fabric_Engine/01_01_UniverseGenesisSeed_UGS/UniverseGenesisSeed.cpp:95 | characters after the digit run do not change the reading |
| HexCodec.ParseSkipsSpace | ProjectOdyssey_Prompts/01_Cosmic_Fabric_Engine/01_01_UniverseGenesisSeed_UGS/UniverseGenesisSeed.cpp:95 | leading white space does not change the reading |
| HexCodec.ParseNegative | ProjectOdyssey_Prompts/01_Cosmic_Fabric_Engine/01_01_UniverseGenesisSeed_UGS/UniverseGenesisSeed.cpp:95 | a minus before a digit run gives the value negated modulo 2^64 |
| HexCodec.ParseBarePrefix | ProjectOdyssey_Prompts/01_Cosmic_Fabric_Engine/01_01_UniverseGenesisSeed_UGS/UniverseGenesisSeed.cpp:95 | a "0x" prefix with no digit after it reads as zero |
| HexCodec.SpanStopsAfter | ProjectOdyssey_Prompts/01_Cosmic_Fabric_Engine/01_01_UniverseGenesisSeed_UGS/UniverseGenesisSeed.cpp:86-88 | the run of characters satisfying a predicate ends exactly at the first character that does not |
| Genesis.FindColon | ProjectOdyssey_Prompts/01_Cosmic_Fabric_Engine/01_01_UniverseGenesisSeed_UGS/UniverseGenesisSeed.cpp:86-88 | the index of the first ':' in the string, or its length (npos) exactly when there is none |
| Genesis.DerivationBase | ProjectOdyssey_Prompts/01_Cosmic_Fabric_Engine/01_01_UniverseGenesisSeed_UGS/UniverseGenesisSeed.cpp:53 | the hash seed of a 64-bit derivation: the low half of a 128-bit master, else the 64-bit master (definition) |
| Genesis.HighBase | ProjectOdyssey_Prompts/01_Cosmic_Fabric_Engine/01_01_UniverseGenesisSeed_UGS/UniverseGenesisSeed.cpp:63-66 | the hash seed of the high half; in 64-bit mode it is the 64-bit derivation's base |
| Genesis.LowBase | ProjectOdyssey_Prompts/01_Cosmic_Fabric_Engine/01_01_UniverseGenesisSeed_UGS/UniverseGenesisSeed.cpp:64-67 | the hash seed of the low half (the 64-bit master XOR 0xDEADBEEFCAFEBABE in 64-bit mode); in 128-bit mode it is the 64-bit derivation's base |
| Genesis.SubSeed | ProjectOdyssey_Prompts/01_Cosmic_Fabric_Engine/01_01_UniverseGenesisSeed_UGS/UniverseGenesisSeed.cpp:54-55 | one derived word: the hash of the context keyed by the base, XOR the identifier (definition) |
| Genesis.Derive64 | ProjectOdyssey_Prompts/01_Cosmic_Fabric_Engine/01_01_UniverseGenesisSeed_UGS/UniverseGenesisSeed.cpp:50-56 | deriving fails with NotSet if and only if no master is set |
| Genesis.Derive128 | ProjectOdyssey_Prompts/01_Cosmic_Fabric_Engine/01_01_UniverseGenesisSeed_UGS/UniverseGenesisSeed.cpp:58-70 | deriving fails with NotSet if and only if no master is set |
| Genesis.UniverseGenesisSeed.Valid | ProjectOdyssey_Prompts/01_Cosmic_Fabric_Engine/01_01_UniverseGenesisSeed_UGS/UniverseGenesisSeed.hpp:38-41 | the class invariant: an unset object is in 64-bit mode with a zero 64-bit value (the 128-bit value may keep residue of a failed import) |
| Genesis.UniverseGenesisSeed.Mode | ProjectOdyssey_Prompts/01_Cosmic_Fabric_Engine/01_01_UniverseGenesisSeed_UGS/UniverseGenesisSeed.hpp:38-41 | the tagged view of the four fields: Unset when the seed is not set, otherwise the value of the width the flag selects (definition) |
| Genesis.UniverseGenesisSeed.constructor | ProjectOdyssey_Prompts/01_Cosmic_Fabric_Engine/01_01_UniverseGenesisSeed_UGS/UniverseGenesisSeed.hpp:38-41 | a new object holds zeros, is unset and is in 64-bit mode |
| Genesis.UniverseGenesisSeed.SetMasterSeed64 | ProjectOdyssey_Prompts/01_Cosmic_Fabric_Engine/01_01_UniverseGenesisSeed_UGS/UniverseGenesisSeed.cpp:7-12 | the object is set, in 64-bit mode and holds the new value; the 128-bit value is unchanged |
| Genesis.UniverseGenesisSeed.SetMasterSeed128 | ProjectOdyssey_Prompts/01_Cosmic_Fabric_Engine/01_01_UniverseGenesisSeed_UGS/UniverseGenesisSeed.cpp:14-19 | the object is set, in 128-bit mode and holds the new pair; the 64-bit value is unchanged |
| Genesis.UniverseGenesisSeed.GetMasterSeed64 | ProjectOdyssey_Prompts/01_Cosmic_Fabric_Engine/01_01_UniverseGenesisSeed_UGS/UniverseGenesisSeed.cpp:21-26 | NotSet when unset, WrongWidth in 128-bit mode, otherwise the stored 64-bit value |
| Genesis.UniverseGenesisSeed.GetMasterSeed128 | ProjectOdyssey_Prompts/01_Cosmic_Fabric_Engine/01_01_UniverseGenesisSeed_UGS/UniverseGenesisSeed.cpp:28-33 | NotSet when unset, WrongWidth in 64-bit mode, otherwise the stored pair |
| Genesis.UniverseGenesisSeed.IsMasterSeedSet | ProjectOdyssey_Prompts/01_Cosmic_Fabric_Engine/01_01_UniverseGenesisSeed_UGS/UniverseGenesisSeed.cpp:35-38 | true exactly when the mode is not Unset |
| Genesis.UniverseGenesisSeed.DeriveSeed64 | ProjectOdyssey_Prompts/01_Cosmic_Fabric_Engine/01_01_UniverseGenesisSeed_UGS/UniverseGenesisSeed.cpp:50-56 | fails, always with NotSet, if and only if the seed is not set |
| Genesis.UniverseGenesisSeed.DeriveSeed128 | ProjectOdyssey_Prompts/01_Cosmic_Fabric_Engine/01_01_UniverseGenesisSeed_UGS/UniverseGenesisSeed.cpp:58-70 | fails, always with NotSet, if and only if the seed is not set |
| Genesis.UniverseGenesisSeed.ExportSeedToString | ProjectOdyssey_Prompts/01_Cosmic_Fabric_Engine/01_01_UniverseGenesisSeed_UGS/UniverseGenesisSeed.cpp:72-82 | 16 lowercase hex digits in 64-bit mode; in 128-bit mode 33 characters with ':' at index 16; the output contains ':' if and only if it is in 128-bit mode; it does not fail when unset |
| Genesis.UniverseGenesisSeed.ImportSeedFromString | ProjectOdyssey_Prompts/01_Cosmic_Fabric_Engine/01_01_UniverseGenesisSeed_UGS/UniverseGenesisSeed.cpp:84-100 | without a colon: the whole string is parsed into the 64-bit value and the object becomes set in 64-bit mode, or nothing changes on ParseError. With a colon: the two sides are parsed as high and low; a high failure changes nothing; a low failure leaves the new high half stored and the flags unchanged; success sets 128-bit mode |
| Genesis.UniverseGenesisSeed.Clear | ProjectOdyssey_Prompts/01_Cosmic_Fabric_Engine/01_01_UniverseGenesisSeed_UGS/UniverseGenesisSeed.cpp:102-107 | all values are zero and the object is unset and in 64-bit mode |
| Genesis.SetThenRead64 | ProjectOdyssey_Prompts/01_Cosmic_Fabric_Engine/01_01_UniverseGenesisSeed_UGS/UniverseGenesisSeed.cpp:7-26 | for every value and any earlier 128-bit master: after set64 the 64-bit getter returns the value, the 128-bit getter fails with WrongWidth, and derivation gives the word keyed by the value |
| Genesis.SetThenRead128 | ProjectOdyssey_Prompts/01_Cosmic_Fabric_Engine/01_01_UniverseGenesisSeed_UGS/UniverseGenesisSeed.cpp:14-33 | for every pair and any earlier 64-bit master: after set128 the 128-bit getter returns the pair, the 64-bit getter fails with WrongWidth, and each derived half is keyed by the matching master half |
| Genesis.UnsetObjectRefuses | ProjectOdyssey_Prompts/01_Cosmic_Fabric_Engine/01_01_UniverseGenesisSeed_UGS/UniverseGenesisSeed.cpp:21-60 | an unset object refuses both getters and both derivations with NotSet |
| Genesis.Derive64Of64 | ProjectOdyssey_Prompts/01_Cosmic_Fabric_Engine/01_01_UniverseGenesisSeed_UGS/UniverseGenesisSeed.cpp:53-55 | in 64-bit mode the derived seed is Hash(context, master) XOR id |
| Genesis.Derive64Of128 | ProjectOdyssey_Prompts/01_Cosmic_Fabric_Engine/01_01_UniverseGenesisSeed_UGS/UniverseGenesisSeed.cpp:53-55 | in 128-bit mode the 64-bit derivation is keyed by the low half only |
| Genesis.Derive128Of128 | ProjectOdyssey_Prompts/01_Cosmic_Fabric_Engine/01_01_UniverseGenesisSeed_UGS/UniverseGenesisSeed.cpp:62-64 | in 128-bit mode each half of the result is the hash keyed by the matching master half, XOR id |
| Genesis.Derive128Of64 | ProjectOdyssey_Prompts/01_Cosmic_Fabric_Engine/01_01_UniverseGenesisSeed_UGS/UniverseGenesisSeed.cpp:65-67 | in 64-bit mode the high half is keyed by the master and the low half by the master XOR 0xDEADBEEFCAFEBABE |
| Genesis.Derive128LowIsDerive64 | ProjectOdyssey_Prompts/01_Cosmic_Fabric_Engine/01_01_UniverseGenesisSeed_UGS/UniverseGenesisSeed.cpp:53-64 | in 128-bit mode the low half of a 128-bit derivation equals the 64-bit derivation |
| Genesis.Derive128HighIsDerive64 | ProjectOdyssey_Prompts/01_Cosmic_Fabric_Engine/01_01_UniverseGenesisSeed_UGS/UniverseGenesisSeed.cpp:53-66 | in 64-bit mode the high half of a 128-bit derivation equals the 64-bit derivation |
| Genesis.SubSeedInjectiveInBase | ProjectOdyssey_Prompts/01_Cosmic_Fabric_Engine/01_01_UniverseGenesisSeed_UGS/UniverseGenesisSeed.cpp:54-55 | for a fixed context and id, two bases give the same sub-seed if and only if they are equal |
| Genesis.SubSeedInjectiveInId | ProjectOdyssey_Prompts/01_Cosmic_Fabric_Engine/01_01_UniverseGenesisSeed_UGS/UniverseGenesisSeed.cpp:55 | for a fixed base and context, two ids give the same sub-seed if and only if they are equal |
| Genesis.Derive64InjectiveInId | ProjectOdyssey_Prompts/01_Cosmic_Fabric_Engine/01_01_UniverseGenesisSeed_UGS/UniverseGenesisSeed.cpp:50-56 | for a set master and a fixed context, distinct identifiers always derive distinct 64-bit seeds |
| Genesis.Derive64InjectiveInMaster | ProjectOdyssey_Prompts/01_Cosmic_Fabric_Engine/01_01_UniverseGenesisSeed_UGS/UniverseGenesisSeed.cpp:53-55 | two masters derive the same 64-bit seed if and only if their derivation bases are equal |
| Genesis.Derive128HighInjectiveInId | ProjectOdyssey_Prompts/01_Cosmic_Fabric_Engine/01_01_UniverseGenesisSeed_UGS/UniverseGenesisSeed.cpp:63-66 | distinct identifiers give distinct high halves |
| Genesis.Derive128LowInjectiveInId | ProjectOdyssey_Prompts/01_Cosmic_Fabric_Engine/01_01_UniverseGenesisSeed_UGS/UniverseGenesisSeed.cpp:64-67 | distinct identifiers give distinct low halves |
| Genesis.BasesDiffer | ProjectOdyssey_Prompts/01_Cosmic_Fabric_Engine/01_01_UniverseGenesisSeed_UGS/UniverseGenesisSeed.cpp:62-67 | the two hash bases differ if and only if the mode is 64-bit (salted) or the master halves differ |
| Genesis.Derive128HalvesDifferByBases | ProjectOdyssey_Prompts/01_Cosmic_Fabric_Engine/01_01_UniverseGenesisSeed_UGS/UniverseGenesisSeed.cpp:62-67 | the two halves of a derived 128-bit seed differ if and only if the two hash bases differ |
| Genesis.Derive128HalvesDiffer | ProjectOdyssey_Prompts/01_Cosmic_Fabric_Engine/01_01_UniverseGenesisSeed_UGS/UniverseGenesisSeed.cpp:62-67 | the two halves of a derived 128-bit seed differ if and only if the mode is 64-bit or the master halves differ |
| Genesis.ImportOfExported64 | ProjectOdyssey_Prompts/01_Cosmic_Fabric_Engine/01_01_UniverseGenesisSeed_UGS/UniverseGenesisSeed.cpp:79-95 | a 64-bit rendering contains no colon and parses back to the rendered value |
| Genesis.ImportOfExported128 | ProjectOdyssey_Prompts/01_Cosmic_Fabric_Engine/01_01_UniverseGenesisSeed_UGS/UniverseGenesisSeed.cpp:76-92 | a 128-bit rendering splits at its own colon and both sides parse back to the rendered halves |
| Genesis.ExportImportRoundTrip64 | ProjectOdyssey_Prompts/01_Cosmic_Fabric_Engine/01_01_UniverseGenesisSeed_UGS/UniverseGenesisSeed.cpp:72-100 | importing a 64-bit export into a new object succeeds and gives the 64-bit master (the same mode whenever the original was set) |
| Genesis.ExportImportRoundTrip128 | ProjectOdyssey_Prompts/01_Cosmic_Fabric_Engine/01_01_UniverseGenesisSeed_UGS/UniverseGenesisSeed.cpp:72-100 | importing a 128-bit export into a new object succeeds and gives the same 128-bit mode and pair |
| Scenarios.SetGet | ProjectOdyssey_Prompts/01_Cosmic_Fabric_Engine/01_01_UniverseGenesisSeed_UGS/test_UniverseGenesisSeed.cpp:5-15 | set/get of 123456789, is_set true, then set/get of the 128-bit pair after clear |
| Scenarios.Derive64Distinct | ProjectOdyssey_Prompts/01_Cosmic_Fabric_Engine/01_01_UniverseGenesisSeed_UGS/test_UniverseGenesisSeed.cpp:17-23 | under master 42 and context "test", identifiers 1 and 2 derive different seeds, and a repeat is identical |
| Scenarios.Derive128Distinct | ProjectOdyssey_Prompts/01_Cosmic_Fabric_Engine/01_01_UniverseGenesisSeed_UGS/test_UniverseGenesisSeed.cpp:24-31 | under master {100, 200} and context "mod", identifiers 99 and 100 derive different seeds, a repeat is identical, and the halves differ |
| Scenarios.ExportImport64 | ProjectOdyssey_Prompts/01_Cosmic_Fabric_Engine/01_01_UniverseGenesisSeed_UGS/test_UniverseGenesisSeed.cpp:34-40 | 0xDEADBEEFCAFEBABE survives export and import into a new object |
| Scenarios.ExportImport128 | ProjectOdyssey_Prompts/01_Cosmic_Fabric_Engine/01_01_UniverseGenesisSeed_UGS/test_UniverseGenesisSeed.cpp:41-48 | the pair {0x1111222233334444, 0x5555666677778888} survives export and import |
| Scenarios.EdgeCases | ProjectOdyssey_Prompts/01_Cosmic_Fabric_Engine/01_01_UniverseGenesisSeed_UGS/test_UniverseGenesisSeed.cpp:51-57 | the masters 0 and 0xFFFFFFFFFFFFFFFF are stored and read back unchanged |
| Scenarios.ReadingOfHighOnly | ProjectOdyssey_Prompts/01_Cosmic_Fabric_Engine/01_01_UniverseGenesisSeed_UGS/UniverseGenesisSeed.cpp:86-92 | "12:zz" splits at 2, its high field reads 0x12 and its low field fails |
| Scenarios.ImportFailsOnLowField | ProjectOdyssey_Prompts/01_Cosmic_Fabric_Engine/01_01_UniverseGenesisSeed_UGS/UniverseGenesisSeed.cpp:88-93 | importing "12:zz" into a 64-bit object fails with ParseError, keeps the 64-bit master, but overwrites the stored high half with 0x12 |
| Scenarios.ClearTwice | ProjectOdyssey_Prompts/01_Cosmic_Fabric_Engine/01_01_UniverseGenesisSeed_UGS/UniverseGenesisSeed.cpp:102-107 | clearing twice leaves an unset object whose export is sixteen zeros |

## Left out

- The `std::mutex` and `lock_guard` in every member: each method is modelled as one atomic step, and concurrent callers are not modelled.
- The `ostringstream`/`iomanip` machinery: only the characters it produces (zero-padded lowercase hex) are modelled.
- Exception types and messages (`std::runtime_error`, `std::invalid_argument`, `std::out_of_range`): each becomes an `Err` carrying NotSet, WrongWidth or ParseError.
- The C locale is assumed for white space and hex digits in `stoull`; other locales are not modelled.
- An `unsigned long long` wider than 64 bits, or a `stoull` that is not glibc's, is not modelled: with a wider type a field worth 2^64 or more would not fail but be cut to 64 bits by the assignments.
- The randomness and collision-resistance claims about derived seeds are not modelled; what is proved instead is injectivity in the identifier and in the base, for a fixed context.
- The test driver's `main`, its `assert` macro and its console output: the test scenarios are postconditions of methods in `Scenarios`.
- Genesis.UniverseGenesisSeed.ImportSeedFromString: requires `Valid()`, the invariant every constructed object keeps (an unset object holds a zero 64-bit value in 64-bit mode), so that the failing branches, which leave the flags alone, keep it; the original places no demand on its caller.
