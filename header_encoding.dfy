/**
 * The writer's side of the header format: every header the reader accepts has an encoding,
 * and get_header reads that encoding back as the same header, leaving the stream right after
 * it. A movie header is written with one flag and one unit for each of its labels; the reader
 * keeps only the (label, unit) pairs whose flag is set, so a movie header round-trips when its
 * params are exactly those pairs.
 */
module HeaderEncoding {
  import opened Wire
  import opened Headers

  /** What a movie header writes for its params: a flag and a unit for each label, in label order. */
  datatype ParamBlock = ParamBlock(flags: seq<bool>, units: seq<Bytes>)

  /** The names of declared quantities. */
  function Firsts(qs: seq<(Bytes, Bytes)>): (r: seq<Bytes>)
    ensures |r| == |qs| && forall k :: 0 <= k < |qs| ==> r[k] == qs[k].0
  {
    seq(|qs|, k requires 0 <= k < |qs| => qs[k].0)
  }

  /** The units of declared quantities. */
  function Seconds(qs: seq<(Bytes, Bytes)>): (r: seq<Bytes>)
    ensures |r| == |qs| && forall k :: 0 <= k < |qs| ==> r[k] == qs[k].1
  {
    seq(|qs|, k requires 0 <= k < |qs| => qs[k].1)
  }

  /** Each flag as the int a writer puts for it: 1 when set, 0 when not. */
  function FlagInts(flags: seq<bool>): (r: seq<int>)
    ensures |r| == |flags| && forall k :: 0 <= k < |flags| ==> r[k] == (if flags[k] then 1 else 0)
  {
    seq(|flags|, k requires 0 <= k < |flags| => if flags[k] then 1 else 0)
  }

  /** Splitting quantities into names and units and zipping them back gives the quantities. */
  lemma ZipSplit(qs: seq<(Bytes, Bytes)>)
    ensures Zip(Firsts(qs), Seconds(qs)) == qs
  {
    var z := Zip(Firsts(qs), Seconds(qs));
    assert |z| == |qs|;
    forall k | 0 <= k < |qs| ensures z[k] == qs[k] {
      assert z[k] == (qs[k].0, qs[k].1);
    }
  }

  // ---------------------------------------------------------------- what can be written

  /** Every count and int of the body fits in 32 bits and every string has a writable length. */
  predicate FieldsBodyWritable(b: Body)
    requires b.FieldsBody?
  {
    IsInt32(b.geometry) && IsInt32(b.domains) && |b.quantities| < 0x8000_0000 &&
    ShortStrs(Firsts(b.quantities)) && ShortStrs(Seconds(b.quantities))
  }

  /**
   * The movie ints fit in 32 bits, the block has a flag and a unit for each of 7, 8 or 11
   * labels, and the params are the pairs of those labels and units whose flag is set.
   */
  predicate MovieBodyWritable(b: Body, block: ParamBlock)
    requires b.MovieBody?
  {
    IsInt32(b.geometry) && IsInt32(b.sflagsx) && IsInt32(b.sflagsy) && IsInt32(b.sflagsz) &&
    ParamBlockWritable(block) && b.params == SelectParams(ParamLabels[..|block.flags|], block.units, block.flags)
  }

  /** A flag and a unit for each of 7, 8 or 11 labels, every unit of writable length. */
  predicate ParamBlockWritable(block: ParamBlock) {
    |block.flags| == |block.units| && |block.flags| in {7, 8, 11} && ShortStrs(block.units)
  }

  predicate ExtractionBodyWritable(b: Body)
    requires b.ExtractionBody?
  {
    IsInt32(b.geometry) && |b.names| < 0x8000_0000 && ShortStrs(b.names)
  }

  /** A header a writer can put in a file: its body is the one its dump type calls for, and writable. */
  predicate Writable(h: Header, block: ParamBlock) {
    IsInt32(h.dumpType) && IsInt32(h.dversion) && |h.title| < 0x8000_0000 && |h.revision| < 0x8000_0000 &&
    match h.body
    case FieldsBody(_, _, _, _) => (h.dumpType == 2 || h.dumpType == 3) && FieldsBodyWritable(h.body)
    case MovieBody(_, _, _, _, _) => h.dumpType == 6 && MovieBodyWritable(h.body, block)
    case ExtractionBody(_, _) => h.dumpType == 10 && ExtractionBodyWritable(h.body)
  }

  // ---------------------------------------------------------------- encoders

  /** 'fii', the quantity count, every name, then every unit. */
  function EncodeFieldsBody(b: Body): Bytes
    requires b.FieldsBody? && FieldsBodyWritable(b)
  {
    EncodeWord(b.timestamp) + (EncodeInt(b.geometry) + (EncodeInt(b.domains) +
    (EncodeInt(|b.quantities|) + (EncodeStrs(Firsts(b.quantities)) + EncodeStrs(Seconds(b.quantities))))))
  }

  /** 'iiii', then the params. */
  function EncodeMovieBody(b: Body, block: ParamBlock): Bytes
    requires b.MovieBody? && MovieBodyWritable(b, block)
  {
    EncodeInt(b.geometry) + (EncodeInt(b.sflagsx) + (EncodeInt(b.sflagsy) + (EncodeInt(b.sflagsz) + EncodeParams(block))))
  }

  /** The param count, one int flag per label, then one unit per label. */
  function EncodeParams(block: ParamBlock): Bytes
    requires ParamBlockWritable(block)
  {
    EncodeInt(|block.flags|) + (EncodeInts(FlagInts(block.flags)) + EncodeStrs(block.units))
  }

  /** The geometry, the name count, then every name. */
  function EncodeExtractionBody(b: Body): Bytes
    requires b.ExtractionBody? && ExtractionBodyWritable(b)
  {
    EncodeInt(b.geometry) + (EncodeInt(|b.names|) + EncodeStrs(b.names))
  }

  /** The common 'iiss' record, then the body. */
  function EncodeHeader(h: Header, block: ParamBlock): Bytes
    requires Writable(h, block)
  {
    EncodeInt(h.dumpType) + (EncodeInt(h.dversion) + (EncodeStr(h.title) + (EncodeStr(h.revision) + EncodeBody(h, block))))
  }

  function EncodeBody(h: Header, block: ParamBlock): Bytes
    requires Writable(h, block)
  {
    match h.body
    case FieldsBody(_, _, _, _) => EncodeFieldsBody(h.body)
    case MovieBody(_, _, _, _, _) => EncodeMovieBody(h.body, block)
    case ExtractionBody(_, _) => EncodeExtractionBody(h.body)
  }

  // ---------------------------------------------------------------- round trips
  //
  // Each round trip is proved in two halves: where the encoding puts each field (the
  // ...Fields lemmas, from the bytes), and how the reader assembles the fields (the
  // ...FromFields lemmas, with no bytes in sight).

  /** An encoded fields body reads back as that body and ends where its encoding ends. */
  lemma FieldsBodyRoundTrip(data: Bytes, p: nat, b: Body)
    requires b.FieldsBody? && FieldsBodyWritable(b)
    requires HoldsAt(data, p, EncodeFieldsBody(b))
    ensures FieldsBodyAt(data, p).Ok? && FieldsBodyAt(data, p).value.0 == b
    ensures FieldsBodyAt(data, p).value.1 == p + |EncodeFieldsBody(b)|
  {
    var q := FieldsBodyFields(data, p, b);
    var e := p + |EncodeFieldsBody(b)|;
    ReadIs(StrsAt(data, p + 16, |b.quantities|), Firsts(b.quantities), q);
    ReadIs(StrsAt(data, q, |b.quantities|), Seconds(b.quantities), e);
    FieldsBodyFromFields(data, p, b, q, e);
  }

  /** The fields of an encoded fields body, each where the encoding puts it. */
  lemma FieldsBodyFields(data: Bytes, p: nat, b: Body) returns (q: nat)
    requires b.FieldsBody? && FieldsBodyWritable(b)
    requires HoldsAt(data, p, EncodeFieldsBody(b))
    ensures p + 12 <= |data| && WordAt(data, p) == b.timestamp
    ensures IntAt(data, p + 4) == Ok(b.geometry) && IntAt(data, p + 8) == Ok(b.domains)
    ensures IntAt(data, p + 12) == Ok(|b.quantities|)
    ensures StrsAt(data, p + 16, |b.quantities|).Ok? && StrsAt(data, p + 16, |b.quantities|).value.0 == Firsts(b.quantities)
    ensures StrsAt(data, p + 16, |b.quantities|).value.1 == q
    ensures StrsAt(data, q, |b.quantities|).Ok? && StrsAt(data, q, |b.quantities|).value.0 == Seconds(b.quantities)
    ensures StrsAt(data, q, |b.quantities|).value.1 == p + |EncodeFieldsBody(b)|
  {
    var names, units := Firsts(b.quantities), Seconds(b.quantities);
    var eu := EncodeStrs(units);
    var en := EncodeStrs(names) + eu;
    var n := EncodeInt(|b.quantities|) + en;
    var d := EncodeInt(b.domains) + n;
    var g := EncodeInt(b.geometry) + d;
    WordThen(data, p, b.timestamp, g);
    IntThen(data, p + 4, b.geometry, d);
    IntThen(data, p + 8, b.domains, n);
    IntThen(data, p + 12, |b.quantities|, en);
    StrsThen(data, p + 16, names, eu);
    q := p + 16 + |EncodeStrs(names)|;
    StrsRoundTrip(data, q, units);
  }

  /** get_header's fields body, read from its fields. */
  lemma FieldsBodyFromFields(data: Bytes, p: nat, b: Body, q: nat, e: nat)
    requires b.FieldsBody?
    requires p + 12 <= |data| && WordAt(data, p) == b.timestamp
    requires IntAt(data, p + 4) == Ok(b.geometry) && IntAt(data, p + 8) == Ok(b.domains)
    requires IntAt(data, p + 12) == Ok(|b.quantities|)
    requires StrsAt(data, p + 16, |b.quantities|) == Ok((Firsts(b.quantities), q))
    requires StrsAt(data, q, |b.quantities|) == Ok((Seconds(b.quantities), e))
    ensures FieldsBodyAt(data, p) == Ok((b, e))
  {
    FieldsRecord(data, p);
    ZipSplit(b.quantities);
  }

  /** The int flags a writer puts read back, one get_int each, as the flags. */
  lemma FlagsRoundTrip(data: Bytes, p: nat, flags: seq<bool>)
    requires HoldsAt(data, p, EncodeInts(FlagInts(flags)))
    ensures FlagsAt(data, p, |flags|).Ok? && FlagsAt(data, p, |flags|).value.0 == flags
    ensures FlagsAt(data, p, |flags|).value.1 == p + 4 * |flags|
  {
    IntsRoundTrip(data, p, FlagInts(flags));
    FlagsFromInts(data, p, flags);
  }

  /** Ints that are the flags as 1s and 0s read back, one get_int each, as the flags. */
  lemma FlagsFromInts(data: Bytes, p: nat, flags: seq<bool>)
    requires IntsAt(data, p, |flags|) == Ok(FlagInts(flags))
    ensures FlagsAt(data, p, |flags|).Ok? && FlagsAt(data, p, |flags|).value.0 == flags
  {
    var ints := FlagInts(flags);
    FlagsAtBulk(data, p, |flags|);
    var r := FlagsAt(data, p, |flags|).value.0;
    forall k | 0 <= k < |flags| ensures r[k] == flags[k] {
      assert r[k] == (ints[k] != 0);
    }
  }

  /**
   * Encoded params read back as the (label, unit) pairs whose flag is set, and end where
   * their encoding ends.
   */
  lemma ParamsRoundTrip(data: Bytes, q: nat, block: ParamBlock)
    requires ParamBlockWritable(block) && HoldsAt(data, q, EncodeParams(block))
    ensures ParamsAt(data, q).Ok?
    ensures ParamsAt(data, q).value.0 == SelectParams(ParamLabels[..|block.flags|], block.units, block.flags)
    ensures ParamsAt(data, q).value.1 == q + |EncodeParams(block)|
  {
    var e := q + |EncodeParams(block)|;
    ParamsFields(data, q, block);
    ReadIs(StrsAt(data, q + 4 + 4 * |block.flags|, |block.flags|), block.units, e);
    ParamsFromFields(data, q, block, e);
  }

  /** The fields of encoded params, each where the encoding puts it. */
  lemma ParamsFields(data: Bytes, q: nat, block: ParamBlock)
    requires ParamBlockWritable(block) && HoldsAt(data, q, EncodeParams(block))
    ensures IntAt(data, q) == Ok(|block.flags|)
    ensures IntsAt(data, q + 4, |block.flags|) == Ok(FlagInts(block.flags))
    ensures StrsAt(data, q + 4 + 4 * |block.flags|, |block.flags|).Ok?
    ensures StrsAt(data, q + 4 + 4 * |block.flags|, |block.flags|).value.0 == block.units
    ensures StrsAt(data, q + 4 + 4 * |block.flags|, |block.flags|).value.1 == q + |EncodeParams(block)|
  {
    var eu := EncodeStrs(block.units);
    var ef := EncodeInts(FlagInts(block.flags)) + eu;
    IntThen(data, q, |block.flags|, ef);
    IntsThen(data, q + 4, FlagInts(block.flags), eu);
    StrsRoundTrip(data, q + 4 + 4 * |block.flags|, block.units);
  }

  /** get_header's params, read from their fields: the pairs the flags enable. */
  lemma ParamsFromFields(data: Bytes, q: nat, block: ParamBlock, e: nat)
    requires ParamBlockWritable(block)
    requires IntAt(data, q) == Ok(|block.flags|)
    requires IntsAt(data, q + 4, |block.flags|) == Ok(FlagInts(block.flags))
    requires StrsAt(data, q + 4 + 4 * |block.flags|, |block.flags|) == Ok((block.units, e))
    ensures ParamsAt(data, q) == Ok((SelectParams(ParamLabels[..|block.flags|], block.units, block.flags), e))
  {
    FlagsFromInts(data, q + 4, block.flags);
  }

  /**
   * An encoded movie body reads back with the params its flags enable, which the body holds,
   * and ends where its encoding ends.
   */
  lemma MovieBodyRoundTrip(data: Bytes, p: nat, b: Body, block: ParamBlock)
    requires b.MovieBody? && MovieBodyWritable(b, block)
    requires HoldsAt(data, p, EncodeMovieBody(b, block))
    ensures MovieBodyAt(data, p).Ok? && MovieBodyAt(data, p).value.0 == b
    ensures MovieBodyAt(data, p).value.1 == p + |EncodeMovieBody(b, block)|
  {
    var e := p + |EncodeMovieBody(b, block)|;
    MovieBodyFields(data, p, b, block);
    ParamsRoundTrip(data, p + 16, block);
    ReadIs(ParamsAt(data, p + 16), b.params, e);
    MovieBodyFromFields(data, p, b, e);
  }

  /** The record of an encoded movie body, each int where the encoding puts it, then the params. */
  lemma MovieBodyFields(data: Bytes, p: nat, b: Body, block: ParamBlock)
    requires b.MovieBody? && MovieBodyWritable(b, block)
    requires HoldsAt(data, p, EncodeMovieBody(b, block))
    ensures IntAt(data, p) == Ok(b.geometry) && IntAt(data, p + 4) == Ok(b.sflagsx)
    ensures IntAt(data, p + 8) == Ok(b.sflagsy) && IntAt(data, p + 12) == Ok(b.sflagsz)
    ensures HoldsAt(data, p + 16, EncodeParams(block))
    ensures |EncodeMovieBody(b, block)| == 16 + |EncodeParams(block)|
  {
    var z := EncodeInt(b.sflagsz) + EncodeParams(block);
    var y := EncodeInt(b.sflagsy) + z;
    var x := EncodeInt(b.sflagsx) + y;
    IntThen(data, p, b.geometry, x);
    IntThen(data, p + 4, b.sflagsx, y);
    IntThen(data, p + 8, b.sflagsy, z);
    IntThen(data, p + 12, b.sflagsz, EncodeParams(block));
  }

  /** get_header's movie body, read from its record and its params. */
  lemma MovieBodyFromFields(data: Bytes, p: nat, b: Body, e: nat)
    requires b.MovieBody?
    requires IntAt(data, p) == Ok(b.geometry) && IntAt(data, p + 4) == Ok(b.sflagsx)
    requires IntAt(data, p + 8) == Ok(b.sflagsy) && IntAt(data, p + 12) == Ok(b.sflagsz)
    requires ParamsAt(data, p + 16) == Ok((b.params, e))
    ensures MovieBodyAt(data, p) == Ok((b, e))
  {
    MovieRecord(data, p);
  }

  /** An encoded extraction body reads back as that body and ends where its encoding ends. */
  lemma ExtractionBodyRoundTrip(data: Bytes, p: nat, b: Body)
    requires b.ExtractionBody? && ExtractionBodyWritable(b)
    requires HoldsAt(data, p, EncodeExtractionBody(b))
    ensures ExtractionBodyAt(data, p).Ok? && ExtractionBodyAt(data, p).value.0 == b
    ensures ExtractionBodyAt(data, p).value.1 == p + |EncodeExtractionBody(b)|
  {
    var e := EncodeStrs(b.names);
    IntThen(data, p, b.geometry, EncodeInt(|b.names|) + e);
    IntThen(data, p + 4, |b.names|, e);
    StrsRoundTrip(data, p + 8, b.names);
  }

  /** The body of an encoded header reads back as the body its dump type selects. */
  lemma BodyRoundTrip(data: Bytes, q: nat, h: Header, block: ParamBlock)
    requires Writable(h, block)
    requires HoldsAt(data, q, EncodeBody(h, block))
    ensures BodyAt(data, q, h.dumpType).Ok? && BodyAt(data, q, h.dumpType).value.0 == h.body
    ensures BodyAt(data, q, h.dumpType).value.1 == q + |EncodeBody(h, block)|
  {
    match h.body
    case FieldsBody(_, _, _, _) => FieldsBodyRoundTrip(data, q, h.body);
    case MovieBody(_, _, _, _, _) => MovieBodyRoundTrip(data, q, h.body, block);
    case ExtractionBody(_, _) => ExtractionBodyRoundTrip(data, q, h.body);
  }

  /**
   * get_header reads an encoded header back as that header and stops right after its
   * encoding, whatever follows it.
   */
  lemma HeaderRoundTrip(data: Bytes, p: nat, h: Header, block: ParamBlock)
    requires Writable(h, block)
    requires HoldsAt(data, p, EncodeHeader(h, block))
    ensures HeaderAt(data, p).Ok? && HeaderAt(data, p).value.0 == h
    ensures HeaderAt(data, p).value.1 == p + |EncodeHeader(h, block)|
  {
    var q1, q2 := HeaderFields(data, p, h, block);
    var e := p + |EncodeHeader(h, block)|;
    BodyRoundTrip(data, q2, h, block);
    ReadIs(StrAt(data, p + 8), h.title, q1);
    ReadIs(StrAt(data, q1), h.revision, q2);
    ReadIs(BodyAt(data, q2, h.dumpType), h.body, e);
    HeaderFromFields(data, p, h, q1, q2, e);
  }

  /** The common record of an encoded header, each field where the encoding puts it, then the body. */
  lemma HeaderFields(data: Bytes, p: nat, h: Header, block: ParamBlock) returns (q1: nat, q2: nat)
    requires Writable(h, block)
    requires HoldsAt(data, p, EncodeHeader(h, block))
    ensures IntAt(data, p) == Ok(h.dumpType) && IntAt(data, p + 4) == Ok(h.dversion)
    ensures StrAt(data, p + 8).Ok? && StrAt(data, p + 8).value.0 == h.title && StrAt(data, p + 8).value.1 == q1
    ensures StrAt(data, q1).Ok? && StrAt(data, q1).value.0 == h.revision && StrAt(data, q1).value.1 == q2
    ensures HoldsAt(data, q2, EncodeBody(h, block))
    ensures q2 + |EncodeBody(h, block)| == p + |EncodeHeader(h, block)|
  {
    q1, q2 := CommonFields(data, p, h.dumpType, h.dversion, h.title, h.revision, EncodeBody(h, block));
  }

  /** The fields of an encoded common record, each where the encoding puts it, then what follows. */
  lemma CommonFields(data: Bytes, p: nat, dumpType: int, dversion: int, title: Bytes, revision: Bytes, tail: Bytes)
    returns (q1: nat, q2: nat)
    requires IsInt32(dumpType) && IsInt32(dversion) && |title| < 0x8000_0000 && |revision| < 0x8000_0000
    requires HoldsAt(data, p, EncodeInt(dumpType) + (EncodeInt(dversion) + (EncodeStr(title) + (EncodeStr(revision) + tail))))
    ensures IntAt(data, p) == Ok(dumpType) && IntAt(data, p + 4) == Ok(dversion)
    ensures StrAt(data, p + 8).Ok? && StrAt(data, p + 8).value.0 == title && StrAt(data, p + 8).value.1 == q1
    ensures StrAt(data, q1).Ok? && StrAt(data, q1).value.0 == revision && StrAt(data, q1).value.1 == q2
    ensures HoldsAt(data, q2, tail)
    ensures q2 == p + 8 + |EncodeStr(title)| + |EncodeStr(revision)|
  {
    var er := EncodeStr(revision) + tail;
    var et := EncodeStr(title) + er;
    IntThen(data, p, dumpType, EncodeInt(dversion) + et);
    IntThen(data, p + 4, dversion, et);
    StrThen(data, p + 8, title, er);
    q1 := p + 8 + |EncodeStr(title)|;
    StrThen(data, q1, revision, tail);
    q2 := q1 + |EncodeStr(revision)|;
  }

  /** get_header, read from the fields of the common record and the body. */
  lemma HeaderFromFields(data: Bytes, p: nat, h: Header, q1: nat, q2: nat, e: nat)
    requires IntAt(data, p) == Ok(h.dumpType) && IntAt(data, p + 4) == Ok(h.dversion)
    requires StrAt(data, p + 8) == Ok((h.title, q1)) && StrAt(data, q1) == Ok((h.revision, q2))
    requires BodyAt(data, q2, h.dumpType) == Ok((h.body, e))
    ensures HeaderAt(data, p) == Ok((h, e))
  {
    CommonRecord(data, p);
  }

  /** A header followed by anything reads back from the start as the header, ending after it. */
  lemma HeaderPrefixRoundTrip(h: Header, block: ParamBlock, rest: Bytes)
    requires Writable(h, block)
    ensures var e := EncodeHeader(h, block);
      HeaderAt(e + rest, 0).Ok? && HeaderAt(e + rest, 0).value.0 == h && HeaderAt(e + rest, 0).value.1 == |e|
  {
    var e := EncodeHeader(h, block);
    assert (e + rest)[0 .. 0 + |e|] == e;
    HoldsAtSlice(e + rest, 0, e);
    HeaderRoundTrip(e + rest, 0, h, block);
  }
}
