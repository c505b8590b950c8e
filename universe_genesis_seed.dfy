/** The master-seed custodian: a mutable object holding a 64-bit seed, a
    128-bit seed, a width flag and a "seed set" flag, with setters,
    width-checked getters, FNV-based derivation of sub-seeds, and export
    to and import from a hexadecimal string. Every operation of the
    original runs under one mutex; here each is one atomic step. */
module Genesis {
  import opened SeedTypes
  import Fnv
  import opened HexCodec

  /** XORed into a 64-bit master to seed the low half of a derived
      128-bit seed, so that the two halves differ. */
  const FallbackSalt: bv64 := 0xDEAD_BEEF_CAFE_BABE

  /** What a caller can observe of the object: no seed, or a seed of one
      of the two widths. The two fields and two flags of the object map
      onto this tagged view. */
  datatype SeedMode = Unset | Width64(seed: bv64) | Width128(wide: Seed128)

  predicate NotColon(c: char) {
    c != ':'
  }

  /** The position of the first colon, or `|s|` when there is none (the
      `npos` of `std::string::find`). */
  function FindColon(s: string): (i: nat)
    ensures i <= |s|
    ensures i == |s| <==> ':' !in s
    ensures i < |s| ==> s[i] == ':' && ':' !in s[..i]
  {
    Span(s, NotColon)
  }

  // -----------------------------------------------------------------------
  // Derivation, as a function of what the object holds

  /** The seed of the hash behind a 64-bit derivation: the low half of a
      128-bit master, the 64-bit master otherwise. */
  function DerivationBase(mode: SeedMode): bv64
    requires mode != Unset
  {
    if mode.Width128? then mode.wide.low else mode.seed
  }

  /** The seed of the hash behind the high half of a 128-bit derivation:
      the master's high half, or the 64-bit master. */
  function HighBase(mode: SeedMode): (r: bv64)
    requires mode != Unset
    ensures mode.Width64? ==> r == DerivationBase(mode)
  {
    if mode.Width128? then mode.wide.high else mode.seed
  }

  /** The seed of the hash behind the low half of a 128-bit derivation:
      the master's low half, or the 64-bit master XOR the fallback salt. */
  function LowBase(mode: SeedMode): (r: bv64)
    requires mode != Unset
    ensures mode.Width128? ==> r == DerivationBase(mode)
  {
    if mode.Width128? then mode.wide.low else mode.seed ^ FallbackSalt
  }

  /** One derived word: the hash of the context under a base, XORed with
      the identifier. */
  function SubSeed(base: bv64, context: seq<bv8>, id: bv64): bv64 {
    Fnv.Hash(context, base) ^ id
  }

  /** A 64-bit sub-seed; NotSet without a master. */
  function Derive64(mode: SeedMode, context: seq<bv8>, id: bv64): (r: Result<bv64>)
    ensures r.Err? <==> mode == Unset
    ensures r.Err? ==> r.error == NotSet
  {
    if mode == Unset then Err(NotSet)
    else Ok(SubSeed(DerivationBase(mode), context, id))
  }

  /** A 128-bit sub-seed, each half derived under its own base; NotSet
      without a master. */
  function Derive128(mode: SeedMode, context: seq<bv8>, id: bv64): (r: Result<Seed128>)
    ensures r.Err? <==> mode == Unset
    ensures r.Err? ==> r.error == NotSet
  {
    if mode == Unset then Err(NotSet)
    else Ok(Seed128(SubSeed(HighBase(mode), context, id), SubSeed(LowBase(mode), context, id)))
  }

  class UniverseGenesisSeed {
    var masterSeed64: bv64
    var masterSeed128: Seed128
    var use128: bool
    var seedSet: bool

    /** The object invariant: an unset object is in 64-bit layout with a
        zero 64-bit value. (The 128-bit value may hold residue of an
        import that failed on its low half.) */
    ghost predicate Valid()
      reads this
    {
      !seedSet ==> !use128 && masterSeed64 == 0
    }

    /** The tagged view of the two flags and two values. */
    function Mode(): SeedMode
      reads this
    {
      if !seedSet then Unset
      else if use128 then Width128(masterSeed128)
      else Width64(masterSeed64)
    }

    /** A new object is unset, in 64-bit layout, with both values zero. */
    constructor()
      ensures Valid() && Mode() == Unset
      ensures masterSeed64 == 0 && masterSeed128 == Seed128(0, 0)
      ensures !use128 && !seedSet
    {
      masterSeed64 := 0;
      masterSeed128 := Seed128(0, 0);
      use128 := false;
      seedSet := false;
    }

    /** Stores a 64-bit master; the 128-bit value is left as it was. */
    method SetMasterSeed64(newSeed: bv64)
      modifies this
      ensures Valid() && Mode() == Width64(newSeed)
      ensures masterSeed64 == newSeed && !use128 && seedSet
      ensures masterSeed128 == old(masterSeed128)
    {
      masterSeed64 := newSeed;
      use128 := false;
      seedSet := true;
    }

    /** Stores a 128-bit master; the 64-bit value is left as it was. */
    method SetMasterSeed128(newSeed: Seed128)
      modifies this
      ensures Valid() && Mode() == Width128(newSeed)
      ensures masterSeed128 == newSeed && use128 && seedSet
      ensures masterSeed64 == old(masterSeed64)
    {
      masterSeed128 := newSeed;
      use128 := true;
      seedSet := true;
    }

    /** The 64-bit master; fails with NotSet before the width check. */
    function GetMasterSeed64(): (r: Result<bv64>)
      reads this
      ensures r == match Mode()
                   case Unset => Err(NotSet)
                   case Width64(v) => Ok(v)
                   case Width128(_) => Err(WrongWidth)
    {
      if !seedSet then Err(NotSet)
      else if use128 then Err(WrongWidth)
      else Ok(masterSeed64)
    }

    /** The 128-bit master; fails with NotSet before the width check. */
    function GetMasterSeed128(): (r: Result<Seed128>)
      reads this
      ensures r == match Mode()
                   case Unset => Err(NotSet)
                   case Width64(_) => Err(WrongWidth)
                   case Width128(w) => Ok(w)
    {
      if !seedSet then Err(NotSet)
      else if !use128 then Err(WrongWidth)
      else Ok(masterSeed128)
    }

    function IsMasterSeedSet(): (r: bool)
      reads this
      ensures r <==> Mode() != Unset
    {
      seedSet
    }


    /** The 64-bit derivation over this object's master. */
    function DeriveSeed64(context: seq<bv8>, id: bv64): (r: Result<bv64>)
      reads this
      ensures r.Err? <==> !seedSet
      ensures r.Err? ==> r.error == NotSet
    {
      Derive64(Mode(), context, id)
    }

    /** The 128-bit derivation over this object's master. */
    function DeriveSeed128(context: seq<bv8>, id: bv64): (r: Result<Seed128>)
      reads this
      ensures r.Err? <==> !seedSet
      ensures r.Err? ==> r.error == NotSet
    {
      Derive128(Mode(), context, id)
    }

    /** Sixteen lowercase hexadecimal digits in 64-bit layout; in 128-bit
        layout the high half, a colon and the low half. The "seed set"
        flag is not consulted. */
    function ExportSeedToString(): (r: string)
      reads this
      ensures |r| == if use128 then 33 else 16
      ensures use128 ==> r[16] == ':'
      ensures forall i :: 0 <= i < |r| && !(use128 && i == 16) ==> IsLowerHexDigit(r[i])
      ensures ':' in r <==> use128
    {
      if use128 then Hex16(masterSeed128.high) + ":" + Hex16(masterSeed128.low)
      else Hex16(masterSeed64)
    }

    /** Parses one field (no colon, 64-bit layout) or two fields split at
        the first colon (128-bit layout). The high half is stored before
        the low half is parsed, so a failure in the low field leaves the
        new high half in place while the flags stay as they were. */
    method ImportSeedFromString(s: string) returns (r: Result<bool>)
      requires Valid()
      modifies this
      ensures Valid()
      ensures r.Ok? ==> r.value && seedSet
      ensures r.Err? ==> r.error == ParseError
      ensures FindColon(s) == |s| ==>
        match ParseHexField(s)
        case Err(e) => r == Err(e) && unchanged(this)
        case Ok(v) =>
          r == Ok(true) && Mode() == Width64(v) && masterSeed64 == v && !use128 && seedSet
          && masterSeed128 == old(masterSeed128)
      ensures FindColon(s) < |s| ==>
        var high := ParseHexField(s[..FindColon(s)]);
        var low := ParseHexField(s[FindColon(s) + 1..]);
        if high.Err? then
          r == Err(high.error) && unchanged(this)
        else if low.Err? then
          r == Err(low.error) && masterSeed128 == old(masterSeed128).(high := high.value)
          && masterSeed64 == old(masterSeed64) && use128 == old(use128) && seedSet == old(seedSet)
        else
          r == Ok(true) && Mode() == Width128(Seed128(high.value, low.value))
          && masterSeed128 == Seed128(high.value, low.value) && use128 && seedSet
          && masterSeed64 == old(masterSeed64)
    {
      var sep := FindColon(s);
      if sep < |s| {
        var high := ParseHexField(s[..sep]);
        if high.Err? {
          return Err(high.error);
        }
        masterSeed128 := masterSeed128.(high := high.value);
        var low := ParseHexField(s[sep + 1..]);
        if low.Err? {
          return Err(low.error);
        }
        masterSeed128 := masterSeed128.(low := low.value);
        use128 := true;
      } else {
        var v := ParseHexField(s);
        if v.Err? {
          return Err(v.error);
        }
        masterSeed64 := v.value;
        use128 := false;
      }
      seedSet := true;
      r := Ok(true);
    }

    /** Zeroes both values and clears both flags. The new state does not
        depend on the old one, so clearing twice is clearing once. */
    method Clear()
      modifies this
      ensures Valid() && Mode() == Unset
      ensures masterSeed64 == 0 && masterSeed128 == Seed128(0, 0)
      ensures !use128 && !seedSet
    {
      masterSeed64 := 0;
      masterSeed128 := Seed128(0, 0);
      use128 := false;
      seedSet := false;
    }
  }


  // -----------------------------------------------------------------------
  // Properties of the read-only operations

  /** An unset object (new or cleared) refuses every getter and
      derivation with NotSet, and exports as sixteen zeros. */
  lemma UnsetObjectRefuses(u: UniverseGenesisSeed, context: seq<bv8>, id: bv64)
    requires u.Valid() && !u.seedSet
    ensures !u.IsMasterSeedSet()
    ensures u.GetMasterSeed64() == Err(NotSet) && u.GetMasterSeed128() == Err(NotSet)
    ensures u.DeriveSeed64(context, id) == Err(NotSet)
    ensures u.DeriveSeed128(context, id) == Err(NotSet)
    ensures u.ExportSeedToString() == "0000000000000000"
  {
    Hex16Zero();
  }

  /** Under a 64-bit master the 64-bit derivation hashes the context
      under the master. */
  lemma Derive64Of64(v: bv64, context: seq<bv8>, id: bv64)
    ensures Derive64(Width64(v), context, id) == Ok(SubSeed(v, context, id))
  {
  }

  /** Under a 128-bit master the 64-bit derivation hashes the context
      under the master's low half. */
  lemma Derive64Of128(w: Seed128, context: seq<bv8>, id: bv64)
    ensures Derive64(Width128(w), context, id) == Ok(SubSeed(w.low, context, id))
  {
  }

  /** Under a 128-bit master each half of the 128-bit derivation hashes
      the context under the matching half of the master. */
  lemma Derive128Of128(w: Seed128, context: seq<bv8>, id: bv64)
    ensures Derive128(Width128(w), context, id)
            == Ok(Seed128(SubSeed(w.high, context, id), SubSeed(w.low, context, id)))
  {
  }

  /** Under a 64-bit master the high half of the 128-bit derivation hashes
      the context under the master, the low half under the master XOR the
      fallback salt. */
  lemma Derive128Of64(v: bv64, context: seq<bv8>, id: bv64)
    ensures Derive128(Width64(v), context, id)
            == Ok(Seed128(SubSeed(v, context, id), SubSeed(v ^ FallbackSalt, context, id)))
  {
  }

  /** Under a 128-bit master the low half of the 128-bit derivation is
      the 64-bit derivation. */
  lemma Derive128LowIsDerive64(w: Seed128, context: seq<bv8>, id: bv64)
    ensures Derive128(Width128(w), context, id).value.low == Derive64(Width128(w), context, id).value
  {
  }

  /** Under a 64-bit master the high half of the 128-bit derivation is the
      64-bit derivation. */
  lemma Derive128HighIsDerive64(v: bv64, context: seq<bv8>, id: bv64)
    ensures Derive128(Width64(v), context, id).value.high == Derive64(Width64(v), context, id).value
  {
  }

  // The injectivity facts below come in layers (plain XOR, then the hash
  // XORed with an identifier, then SubSeed) so that each proof step is
  // small enough for the solver; the SubSeed lemmas are the ones the
  // derivation lemmas use.

  /** XOR with a fixed value is a bijection. */
  lemma XorCancel(a: bv64, b: bv64, k: bv64)
    ensures k ^ a == k ^ b <==> a == b
  {
  }

  /** XOR with a fixed value is a bijection, the fixed value on the right. */
  lemma XorCancelRight(a: bv64, b: bv64, k: bv64)
    ensures a ^ k == b ^ k <==> a == b
  {
  }

  /** XOR with a non-zero value moves every value. */
  lemma XorMoves(a: bv64, k: bv64)
    requires k != 0
    ensures a ^ k != a
  {
  }

  lemma HashXorInjectiveInSeed(context: seq<bv8>, a: bv64, b: bv64, id: bv64)
    ensures Fnv.Hash(context, a) ^ id == Fnv.Hash(context, b) ^ id <==> a == b
  {
    XorCancelRight(Fnv.Hash(context, a), Fnv.Hash(context, b), id);
    Fnv.HashInjectiveInSeed(context, a, b);
  }

  lemma HashXorInjectiveInId(context: seq<bv8>, base: bv64, id1: bv64, id2: bv64)
    ensures Fnv.Hash(context, base) ^ id1 == Fnv.Hash(context, base) ^ id2 <==> id1 == id2
  {
    XorCancel(id1, id2, Fnv.Hash(context, base));
  }

  /** For a fixed context and identifier, distinct bases give distinct
      words: each FNV step is injective because the prime is odd. */
  lemma SubSeedInjectiveInBase(context: seq<bv8>, a: bv64, b: bv64, id: bv64)
    ensures SubSeed(a, context, id) == SubSeed(b, context, id) <==> a == b
  {
    HashXorInjectiveInSeed(context, a, b, id);
  }

  /** For a fixed base and context, distinct identifiers give distinct
      words: XOR with the identifier is a bijection. */
  lemma SubSeedInjectiveInId(context: seq<bv8>, base: bv64, id1: bv64, id2: bv64)
    ensures SubSeed(base, context, id1) == SubSeed(base, context, id2) <==> id1 == id2
  {
    HashXorInjectiveInId(context, base, id1, id2);
  }

  /** For a fixed master and context, the 64-bit derivation is injective
      in the identifier. */
  lemma Derive64InjectiveInId(mode: SeedMode, context: seq<bv8>, id1: bv64, id2: bv64)
    requires mode != Unset
    ensures Derive64(mode, context, id1) == Derive64(mode, context, id2) <==> id1 == id2
  {
    SubSeedInjectiveInId(context, DerivationBase(mode), id1, id2);
  }

  /** For a fixed context and identifier, two masters derive the same
      64-bit seed exactly when their derivation bases agree. */
  lemma Derive64InjectiveInMaster(mode1: SeedMode, mode2: SeedMode, context: seq<bv8>, id: bv64)
    requires mode1 != Unset && mode2 != Unset
    ensures Derive64(mode1, context, id) == Derive64(mode2, context, id)
            <==> DerivationBase(mode1) == DerivationBase(mode2)
  {
    SubSeedInjectiveInBase(context, DerivationBase(mode1), DerivationBase(mode2), id);
  }

  /** Distinct identifiers give a different high half. */
  lemma Derive128HighInjectiveInId(mode: SeedMode, context: seq<bv8>, id1: bv64, id2: bv64)
    requires mode != Unset && id1 != id2
    ensures Derive128(mode, context, id1).value.high != Derive128(mode, context, id2).value.high
  {
    SubSeedInjectiveInId(context, HighBase(mode), id1, id2);
  }

  /** Distinct identifiers give a different low half. */
  lemma Derive128LowInjectiveInId(mode: SeedMode, context: seq<bv8>, id1: bv64, id2: bv64)
    requires mode != Unset && id1 != id2
    ensures Derive128(mode, context, id1).value.low != Derive128(mode, context, id2).value.low
  {
    SubSeedInjectiveInId(context, LowBase(mode), id1, id2);
  }

  /** The two bases of a 128-bit derivation differ exactly when the master
      is 64-bit (the fallback salt is non-zero) or its two halves differ. */
  lemma BasesDiffer(mode: SeedMode)
    requires mode != Unset
    ensures HighBase(mode) != LowBase(mode) <==> mode.Width64? || mode.wide.high != mode.wide.low
  {
    if mode.Width64? {
      XorMoves(mode.seed, FallbackSalt);
    }
  }

  /** The two halves of a derived 128-bit seed differ exactly when their
      bases differ. */
  lemma Derive128HalvesDifferByBases(mode: SeedMode, context: seq<bv8>, id: bv64)
    requires mode != Unset
    ensures Derive128(mode, context, id).value.high != Derive128(mode, context, id).value.low
            <==> HighBase(mode) != LowBase(mode)
  {
    SubSeedInjectiveInBase(context, HighBase(mode), LowBase(mode), id);
  }

  /** The two halves of a derived 128-bit seed differ exactly when the
      master is 64-bit (the salt keeps them apart) or its two halves
      differ. */
  lemma Derive128HalvesDiffer(mode: SeedMode, context: seq<bv8>, id: bv64)
    requires mode != Unset
    ensures Derive128(mode, context, id).value.high != Derive128(mode, context, id).value.low
            <==> mode.Width64? || mode.wide.high != mode.wide.low
  {
    Derive128HalvesDifferByBases(mode, context, id);
    BasesDiffer(mode);
  }

  // -----------------------------------------------------------------------
  // Setting a master, for every value

  /** Whatever master of the other width was stored before, setting a
      64-bit master makes the 64-bit getter return it, the 128-bit getter
      refuse with WrongWidth, and derivation hash the context under it. */
  method SetThenRead64(v: bv64, old128: Seed128, context: seq<bv8>, id: bv64)
    returns (g64: Result<bv64>, g128: Result<Seed128>, d: Result<bv64>)
    ensures g64 == Ok(v) && g128 == Err(WrongWidth)
    ensures d == Ok(SubSeed(v, context, id))
  {
    var ugs := new UniverseGenesisSeed();
    ugs.SetMasterSeed128(old128);
    ugs.SetMasterSeed64(v);
    g64 := ugs.GetMasterSeed64();
    g128 := ugs.GetMasterSeed128();
    d := ugs.DeriveSeed64(context, id);
    Derive64Of64(v, context, id);
  }

  /** Whatever 64-bit master was stored before, setting a 128-bit master
      makes the 128-bit getter return it, the 64-bit getter refuse with
      WrongWidth, and derivation hash the context under each half. */
  method SetThenRead128(w: Seed128, old64: bv64, context: seq<bv8>, id: bv64)
    returns (g64: Result<bv64>, g128: Result<Seed128>, d: Result<Seed128>)
    ensures g128 == Ok(w) && g64 == Err(WrongWidth)
    ensures d == Ok(Seed128(SubSeed(w.high, context, id), SubSeed(w.low, context, id)))
  {
    var ugs := new UniverseGenesisSeed();
    ugs.SetMasterSeed64(old64);
    ugs.SetMasterSeed128(w);
    g64 := ugs.GetMasterSeed64();
    g128 := ugs.GetMasterSeed128();
    d := ugs.DeriveSeed128(context, id);
    Derive128Of128(w, context, id);
  }

  // -----------------------------------------------------------------------
  // Export followed by import

  /** A rendered 64-bit value has no colon and parses back to itself. */
  lemma ImportOfExported64(v: bv64)
    ensures FindColon(Hex16(v)) == |Hex16(v)|
    ensures ParseHexField(Hex16(v)) == Ok(v)
  {
    var s := Hex16(v);
    assert s == s + [];
    SpanStopsAfter(s, [], NotColon);
    ParseHex16(v);
  }

  /** A rendered 128-bit value splits at its colon into the two rendered
      halves, each of which parses back to itself. */
  lemma ImportOfExported128(w: Seed128)
    ensures var s := Hex16(w.high) + ":" + Hex16(w.low);
            FindColon(s) < |s|
            && ParseHexField(s[..FindColon(s)]) == Ok(w.high)
            && ParseHexField(s[FindColon(s) + 1..]) == Ok(w.low)
  {
    var high, low := Hex16(w.high), Hex16(w.low);
    var s := high + ":" + low;
    assert s == high + (":" + low);
    SpanStopsAfter(high, ":" + low, NotColon);
    assert s[..16] == high && s[17..] == low;
    ParseHex16(w.high);
    ParseHex16(w.low);
  }

  /** Exporting a 64-bit (or unset) object and importing the string into
      a new object succeeds and restores the same 64-bit value. An unset
      object exports as a 64-bit zero, which imports as a set 64-bit zero. */
  method ExportImportRoundTrip64(u: UniverseGenesisSeed) returns (w: UniverseGenesisSeed, r: Result<bool>)
    requires u.Valid() && !u.use128
    ensures w.Valid() && r == Ok(true)
    ensures w.Mode() == Width64(u.masterSeed64)
    ensures u.seedSet ==> w.Mode() == u.Mode()
  {
    var s := u.ExportSeedToString();
    ImportOfExported64(u.masterSeed64);
    w := new UniverseGenesisSeed();
    r := w.ImportSeedFromString(s);
  }

  /** Exporting a 128-bit object and importing the string into a new
      object succeeds and restores the same two halves. */
  method ExportImportRoundTrip128(u: UniverseGenesisSeed) returns (w: UniverseGenesisSeed, r: Result<bool>)
    requires u.Valid() && u.use128
    ensures w.Valid() && r == Ok(true)
    ensures w.Mode() == u.Mode() == Width128(u.masterSeed128)
  {
    var s := u.ExportSeedToString();
    ImportOfExported128(u.masterSeed128);
    w := new UniverseGenesisSeed();
    r := w.ImportSeedFromString(s);
  }
}
