/** The unit tests of the seed custodian, replayed on the model: each
    test's calls run on a fresh object (where the test clears and reuses
    one) and the method's postcondition states what the test asserts.
    Three scenarios of the model's own follow them. */
module Scenarios {
  import opened SeedTypes
  import opened HexCodec
  import opened Genesis

  /** Set a 64-bit master and read it back; clear; set a 128-bit master
      and read both halves back. */
  method SetGet() returns (g64: Result<bv64>, isSet: bool, g128: Result<Seed128>)
    ensures g64 == Ok(123456789) && isSet
    ensures g128 == Ok(Seed128(0xABCD_EF12_3456_7890, 0x1234_5678_90AB_CDEF))
  {
    var ugs := new UniverseGenesisSeed();
    ugs.SetMasterSeed64(123456789);
    g64 := ugs.GetMasterSeed64();
    isSet := ugs.IsMasterSeedSet();
    ugs.Clear();
    ugs.SetMasterSeed128(Seed128(0xABCD_EF12_3456_7890, 0x1234_5678_90AB_CDEF));
    g128 := ugs.GetMasterSeed128();
  }

  /** Under the 64-bit master 42, the context "test" with identifiers 1
      and 2 gives two different seeds, and repeating a derivation repeats
      its result. */
  method Derive64Distinct() returns (s1: Result<bv64>, s2: Result<bv64>, s1Again: Result<bv64>)
    ensures s1.Ok? && s2.Ok? && s1 != s2
    ensures s1Again == s1
  {
    var test: seq<bv8> := [0x74, 0x65, 0x73, 0x74];
    var ugs := new UniverseGenesisSeed();
    ugs.SetMasterSeed64(42);
    s1 := ugs.DeriveSeed64(test, 1);
    s2 := ugs.DeriveSeed64(test, 2);
    s1Again := ugs.DeriveSeed64(test, 1);
    Derive64InjectiveInId(ugs.Mode(), test, 1, 2);
  }

  /** Under the 128-bit master {100, 200}, the context "mod" with
      identifiers 99 and 100 gives different seeds, repeating a
      derivation repeats its result, and the two halves of a derived seed
      differ because the two halves of the master do. */
  method Derive128Distinct() returns (d1: Result<Seed128>, d2: Result<Seed128>, d1Again: Result<Seed128>)
    ensures d1.Ok? && d2.Ok?
    ensures d1.value.high != d2.value.high || d1.value.low != d2.value.low
    ensures d1Again == d1
    ensures d1.value.high != d1.value.low
  {
    var mod: seq<bv8> := [0x6d, 0x6f, 0x64];
    var ugs := new UniverseGenesisSeed();
    ugs.SetMasterSeed128(Seed128(100, 200));
    d1 := ugs.DeriveSeed128(mod, 99);
    d2 := ugs.DeriveSeed128(mod, 100);
    d1Again := ugs.DeriveSeed128(mod, 99);
    Derive128HighInjectiveInId(ugs.Mode(), mod, 99, 100);
    Derive128HalvesDiffer(ugs.Mode(), mod, 99);
  }

  /** A 64-bit master survives export and import into a new object. */
  method ExportImport64() returns (g: Result<bv64>)
    ensures g == Ok(0xDEAD_BEEF_CAFE_BABE)
  {
    var ugs := new UniverseGenesisSeed();
    ugs.SetMasterSeed64(0xDEAD_BEEF_CAFE_BABE);
    var s := ugs.ExportSeedToString();
    ImportOfExported64(0xDEAD_BEEF_CAFE_BABE);
    var ugs2 := new UniverseGenesisSeed();
    var ok := ugs2.ImportSeedFromString(s);
    g := ugs2.GetMasterSeed64();
  }

  /** A 128-bit master survives export and import into a new object. */
  method ExportImport128() returns (g: Result<Seed128>)
    ensures g == Ok(Seed128(0x1111_2222_3333_4444, 0x5555_6666_7777_8888))
  {
    var ugs := new UniverseGenesisSeed();
    var master := Seed128(0x1111_2222_3333_4444, 0x5555_6666_7777_8888);
    ugs.SetMasterSeed128(master);
    var s := ugs.ExportSeedToString();
    ImportOfExported128(master);
    var ugs3 := new UniverseGenesisSeed();
    var ok := ugs3.ImportSeedFromString(s);
    g := ugs3.GetMasterSeed128();
  }

  /** The extreme 64-bit masters are stored and read back unchanged. */
  method EdgeCases() returns (gZero: Result<bv64>, gMax: Result<bv64>)
    ensures gZero == Ok(0)
    ensures gMax == Ok(0xFFFF_FFFF_FFFF_FFFF)
  {
    var ugs := new UniverseGenesisSeed();
    ugs.SetMasterSeed64(0);
    gZero := ugs.GetMasterSeed64();
    ugs.SetMasterSeed64(!0);
    gMax := ugs.GetMasterSeed64();
  }

  /** The digits "12" have the value eighteen. */
  lemma ValueOfTwelve()
    ensures HexValue("12") == 18
  {
    assert "12"[..1] == "1" && "1"[..0] == "";
  }

  /** The field "12" reads as 0x12. */
  lemma ReadTwelve()
    ensures ParseHexField("12") == Ok(0x12)
  {
    ParseDigits("12");
    ValueOfTwelve();
  }

  /** How the import reads "12:zz": split at position 2, a high field
      that parses to 0x12 and a low field that does not parse. */
  lemma ReadingOfHighOnly()
    ensures FindColon("12:zz") == 2
    ensures ParseHexField("12:zz"[..2]) == Ok(0x12)
    ensures ParseHexField("12:zz"[3..]) == Err(ParseError)
  {
    var s := "12:zz";
    assert s == "12" + ":zz" && s[..2] == "12" && s[3..] == "zz";
    SpanStopsAfter("12", ":zz", NotColon);
    ReadTwelve();
    ParseRejectsNonNumeric("zz");
  }

  /** Importing "12:zz" into an object holding the 64-bit master 7 fails
      on the low field after the high half 0x12 has been stored: the
      object still reports the 64-bit master 7, but its 128-bit value has
      changed. */
  method ImportFailsOnLowField() returns (r: Result<bool>, g: Result<bv64>, high: bv64)
    ensures r == Err(ParseError)
    ensures g == Ok(7)
    ensures high == 0x12
  {
    var ugs := new UniverseGenesisSeed();
    ugs.SetMasterSeed64(7);
    ReadingOfHighOnly();
    r := ugs.ImportSeedFromString("12:zz");
    g := ugs.GetMasterSeed64();
    high := ugs.masterSeed128.high;
  }

  /** Clearing twice leaves the same state as clearing once. */
  method ClearTwice() returns (g: Result<bv64>, exported: string)
    ensures g == Err(NotSet)
    ensures exported == "0000000000000000"
  {
    var ugs := new UniverseGenesisSeed();
    ugs.SetMasterSeed128(Seed128(1, 2));
    ugs.Clear();
    ugs.Clear();
    g := ugs.GetMasterSeed64();
    exported := ugs.ExportSeedToString();
    Hex16Zero();
  }
}
