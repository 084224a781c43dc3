/**
 * The header at the start of every .p4 dump (get_header). A common record holds the dump
 * type, the format version, the title and the revision; the body that follows depends on the
 * dump type: 2 (fields) and 3 (scalars) declare their quantities, 6 (particle movie) declares
 * its particle params and 10 (particle extraction) declares its columns. Any other dump type
 * is rejected.
 */
module Headers {
  import opened Wire
  import opened Streams

  /** The part of a header that follows the common record, one variant per family of dumps. */
  datatype Body =
      /** dump_type 2 or 3: the declared quantities as (name, unit) pairs, in file order. */
    | FieldsBody(timestamp: Word, geometry: int, domains: int, quantities: seq<(Bytes, Bytes)>)
      /** dump_type 6: the enabled params as (label, unit) pairs, in label order. */
    | MovieBody(geometry: int, sflagsx: int, sflagsy: int, sflagsz: int, params: seq<(string, Bytes)>)
      /** dump_type 10: the declared quantity names. */
    | ExtractionBody(geometry: int, names: seq<Bytes>)

  datatype Header = Header(dumpType: int, dversion: int, title: Bytes, revision: Bytes, body: Body)

  /** The keys get_header gives the fields of each record it reads with get_dict. */
  const CommonKeys: seq<string> := ["dump_type", "dversion", "title", "revision"]
  const FieldsKeys: seq<string> := ["timestamp", "geometry", "domains"]
  const MovieKeys: seq<string> := ["geometry", "sflagsx", "sflagsy", "sflagsz"]

  /** Every label a movie param can have, in the order the params are written. */
  const ParamLabels: seq<string> := ["q", "x", "y", "z", "ux", "uy", "uz", "E", "xi", "yi", "zi"]

  /** The pairs of two lists up to the shorter one, as `zip`. */
  function Zip<A, B>(xs: seq<A>, ys: seq<B>): (z: seq<(A, B)>)
    ensures |z| == Min(|xs|, |ys|)
    ensures forall k :: 0 <= k < |z| ==> z[k] == (xs[k], ys[k])
  {
    seq(Min(|xs|, |ys|), k requires 0 <= k < Min(|xs|, |ys|) => (xs[k], ys[k]))
  }

  // ---------------------------------------------------------------- movie params

  /**
   * The labels of a movie header with `n` params: the eight base labels for 8, the base
   * labels without E for 7, and the base labels followed by xi, yi, zi for 11. Whatever the
   * count, the labels are the first `n` of ParamLabels.
   */
  function MovieLabels(n: int): (r: Result<seq<string>>)
    ensures r.Ok? <==> n == 7 || n == 8 || n == 11
    ensures r.Ok? ==> 0 <= n <= |ParamLabels| && r.value == ParamLabels[..n]
    ensures r.Err? ==> r.error == UnsupportedParamCount(n)
  {
    var labels := ["q", "x", "y", "z", "ux", "uy", "uz", "E"];
    if n == 8 then Ok(labels)
    else if n == 7 then Ok(labels[..|labels| - 1])
    else if n == 11 then Ok(labels + ["xi", "yi", "zi"])
    else Err(UnsupportedParamCount(n))
  }

  /** The positions below `m` of the set flags, in increasing order. */
  function EnabledIndices(flags: seq<bool>, m: nat): (ix: seq<nat>)
    requires m <= |flags|
    ensures forall j :: 0 <= j < |ix| ==> ix[j] < m && flags[ix[j]]
    ensures forall j, j' :: 0 <= j < j' < |ix| ==> ix[j] < ix[j']
    ensures forall k :: 0 <= k < m && flags[k] ==> k in ix
  {
    if m == 0 then []
    else
      var below := EnabledIndices(flags, m - 1);
      if flags[m - 1] then below + [m - 1] else below
  }

  /**
   * `[(label, unit) for (label, unit, flag) in zip(labels, units, flags) if flag]`, over the
   * first `m` positions.
   */
  function SelectParamsBelow(labels: seq<string>, units: seq<Bytes>, flags: seq<bool>, m: nat): (r: seq<(string, Bytes)>)
    requires m <= |labels| && m <= |units| && m <= |flags|
    ensures |r| <= m
  {
    if m == 0 then []
    else
      var below := SelectParamsBelow(labels, units, flags, m - 1);
      if flags[m - 1] then below + [(labels[m - 1], units[m - 1])] else below
  }

  /** The params a movie header keeps: its labels zipped with its units, filtered by its flags. */
  function SelectParams(labels: seq<string>, units: seq<Bytes>, flags: seq<bool>): (r: seq<(string, Bytes)>)
    ensures |r| == |EnabledIndices(flags, Min(Min(|labels|, |units|), |flags|))|
    ensures forall j :: 0 <= j < |r| ==>
      r[j] == (labels[EnabledIndices(flags, Min(Min(|labels|, |units|), |flags|))[j]],
               units[EnabledIndices(flags, Min(Min(|labels|, |units|), |flags|))[j]])
  {
    SelectParamsEnabled(labels, units, flags, Min(Min(|labels|, |units|), |flags|));
    SelectParamsBelow(labels, units, flags, Min(Min(|labels|, |units|), |flags|))
  }

  /**
   * The selected params are exactly the (label, unit) pairs at the positions of the set
   * flags, in label order: one param per set flag.
   */
  lemma {:induction false} SelectParamsEnabled(labels: seq<string>, units: seq<Bytes>, flags: seq<bool>, m: nat)
    requires m <= |labels| && m <= |units| && m <= |flags|
    ensures |SelectParamsBelow(labels, units, flags, m)| == |EnabledIndices(flags, m)|
    ensures forall j :: 0 <= j < |EnabledIndices(flags, m)| ==>
      SelectParamsBelow(labels, units, flags, m)[j] ==
      (labels[EnabledIndices(flags, m)[j]], units[EnabledIndices(flags, m)[j]])
  {
    if m > 0 {
      SelectParamsEnabled(labels, units, flags, m - 1);
    }
  }

  /** `[bool(get_int(file)) for i in range(n)]`: `n` ints read one at a time, each true when nonzero. */
  function FlagsAt(data: Bytes, p: nat, n: nat): (r: Result<(seq<bool>, nat)>)
    ensures r.Ok? ==> |r.value.0| == n && r.value.1 == p + 4 * n
    decreases n
  {
    if n == 0 then Ok(([], p))
    else
      var x :- IntAt(data, p);
      PrependAt([x != 0], FlagsAt(data, p + 4, n - 1))
  }

  /**
   * Reading the flags one int at a time fails exactly when one bulk read of `n` ints would,
   * and a flag is set exactly when its int is nonzero.
   */
  lemma FlagsAtBulk(data: Bytes, p: nat, n: nat)
    ensures FlagsAt(data, p, n).Ok? <==> IntsAt(data, p, n).Ok?
    ensures FlagsAt(data, p, n).Ok? ==>
      forall k :: 0 <= k < n ==> FlagsAt(data, p, n).value.0[k] == (IntsAt(data, p, n).value[k] != 0)
  {
    FlagsAtWords(data, p, n);
  }

  /** The flags read from `p` are there exactly when `4n` bytes remain; flag `k` is the int at `p + 4k`. */
  lemma {:induction false} FlagsAtWords(data: Bytes, p: nat, n: nat)
    ensures FlagsAt(data, p, n).Ok? <==> 4 * n <= Remaining(data, p)
    ensures FlagsAt(data, p, n).Ok? ==>
      forall k :: 0 <= k < n ==> FlagsAt(data, p, n).value.0[k] == (Int32(WordAt(data, p + 4 * k)) != 0)
    decreases n
  {
    if n > 0 {
      FlagsAtWords(data, p + 4, n - 1);
      var r := FlagsAt(data, p, n);
      if r.Ok? {
        var flags := r.value.0;
        var tail := FlagsAt(data, p + 4, n - 1).value.0;
        assert flags == [Int32(WordAt(data, p)) != 0] + tail;
        forall k | 0 <= k < n
          ensures flags[k] == (Int32(WordAt(data, p + 4 * k)) != 0)
        {
          if k > 0 {
            assert flags[k] == tail[k - 1];
            assert p + 4 + 4 * (k - 1) == p + 4 * k;
          }
        }
      }
    }
  }

  /** One step of reading flags into an accumulator, as StrsAtAdvance for strings. */
  lemma FlagsAtAdvance(whole: Result<(seq<bool>, nat)>, out: seq<bool>, data: Bytes, q: nat, m: nat)
    requires m > 0 && whole == PrependAt(out, FlagsAt(data, q, m))
    ensures IntAt(data, q).Err? ==> whole == Err(IntAt(data, q).error)
    ensures IntAt(data, q).Ok? ==> whole == PrependAt(out + [IntAt(data, q).value != 0], FlagsAt(data, q + 4, m - 1))
  {
    if IntAt(data, q).Ok? {
      PrependAtAssoc(out, [IntAt(data, q).value != 0], FlagsAt(data, q + 4, m - 1));
    }
  }

  // ---------------------------------------------------------------- records

  /**
   * The common record 'iiss' is two words, the dump type and the version, followed by the
   * title and the revision strings.
   */
  lemma CommonRecord(data: Bytes, p: nat)
    ensures ListAt(data, p, "iiss").Ok? <==>
      p + 8 <= |data| && StrAt(data, p + 8).Ok? && StrAt(data, StrAt(data, p + 8).value.1).Ok?
    ensures ListAt(data, p, "iiss").Ok? ==>
      var title := StrAt(data, p + 8).value;
      var revision := StrAt(data, title.1).value;
      ListAt(data, p, "iiss").value ==
      ([IntV(Int32(WordAt(data, p))), IntV(Int32(WordAt(data, p + 4))), StrV(title.0), StrV(revision.0)], revision.1)
  {
    assert "iiss" == "ii" + "ss";
    ListAtAppend(data, p, "ii", "ss");
    IntPairRecord(data, p);
    if p + 8 <= |data| {
      StrPairRecord(data, p + 8);
      var ints := [IntV(Int32(WordAt(data, p))), IntV(Int32(WordAt(data, p + 4)))];
      var rest := ListAt(data, p + 8, "ss");
      if rest.Ok? {
        assert ints + rest.value.0 == [ints[0], ints[1], rest.value.0[0], rest.value.0[1]];
      }
    }
  }

  /** The record 'ii' is two ints, when their two words are there. */
  lemma IntPairRecord(data: Bytes, p: nat)
    ensures ListAt(data, p, "ii").Ok? <==> p + 8 <= |data|
    ensures ListAt(data, p, "ii").Err? ==> ListAt(data, p, "ii").error == Truncated
    ensures ListAt(data, p, "ii").Ok? ==>
      ListAt(data, p, "ii").value == ([IntV(Int32(WordAt(data, p))), IntV(Int32(WordAt(data, p + 4)))], p + 8)
  {
    assert "ii"[0] == 'i' && "ii"[1] == 'i';
    ListAtWordsOnly(data, p, "ii");
    if p + 8 <= |data| {
      var ints := ListAt(data, p, "ii").value.0;
      assert ints[0] == IntV(Int32(WordAt(data, p + 4 * 0)));
      assert ints[1] == IntV(Int32(WordAt(data, p + 4 * 1)));
      assert |ints| == 2;
      assert ints == [ints[0], ints[1]];
    }
  }

  /** The record 's' is one string. */
  lemma StrRecord(data: Bytes, q: nat)
    ensures ListAt(data, q, "s") ==
      if StrAt(data, q).Ok? then Ok(([StrV(StrAt(data, q).value.0)], StrAt(data, q).value.1))
      else Err(StrAt(data, q).error)
  {
    var fmt := "s";
    assert fmt[0] == 's' && fmt[1..] == "";
    ListAtStep(data, q, fmt);
    ItemAtStr(data, q);
    var first := StrAt(data, q);
    if first.Ok? {
      assert ListAt(data, first.value.1, fmt[1..]) == Ok(([], first.value.1));
      assert [StrV(first.value.0)] + [] == [StrV(first.value.0)];
    }
  }

  /** The record 'ss' is two strings, one after the other. */
  lemma StrPairRecord(data: Bytes, q: nat)
    ensures ListAt(data, q, "ss").Ok? <==> StrAt(data, q).Ok? && StrAt(data, StrAt(data, q).value.1).Ok?
    ensures ListAt(data, q, "ss").Ok? ==>
      var first := StrAt(data, q).value;
      var second := StrAt(data, first.1).value;
      ListAt(data, q, "ss").value == ([StrV(first.0), StrV(second.0)], second.1)
  {
    var fmt := "ss";
    assert fmt[0] == 's' && fmt[1..] == "s";
    ListAtStep(data, q, fmt);
    ItemAtStr(data, q);
    var first := StrAt(data, q);
    if first.Ok? {
      StrRecord(data, first.value.1);
      var second := StrAt(data, first.value.1);
      if second.Ok? {
        assert [StrV(first.value.0)] + [StrV(second.value.0)] == [StrV(first.value.0), StrV(second.value.0)];
      }
    }
  }

  /**
   * get_list(file, 'fii') reads the record of a fields header: it succeeds exactly when its
   * three words are there, ends after them, and holds a float and two ints.
   */
  lemma FieldsRecord(data: Bytes, p: nat)
    ensures ListAt(data, p, "fii").Ok? <==> p + 12 <= |data|
    ensures ListAt(data, p, "fii").Err? ==> ListAt(data, p, "fii").error == Truncated
    ensures ListAt(data, p, "fii").Ok? ==>
      ListAt(data, p, "fii").value ==
      ([FloatV(WordAt(data, p)), IntV(Int32(WordAt(data, p + 4))), IntV(Int32(WordAt(data, p + 8)))], p + 12)
  {
    var fmt := "fii";
    assert fmt[0] == 'f' && fmt[1] == 'i' && fmt[2] == 'i';
    ListAtWordsOnly(data, p, fmt);
    var r := ListAt(data, p, fmt);
    if r.Ok? {
      var vs := r.value.0;
      assert vs[0] == FloatV(WordAt(data, p + 4 * 0));
      assert vs[1] == IntV(Int32(WordAt(data, p + 4 * 1)));
      assert vs[2] == IntV(Int32(WordAt(data, p + 4 * 2)));
      assert vs == [FloatV(WordAt(data, p)), IntV(Int32(WordAt(data, p + 4))), IntV(Int32(WordAt(data, p + 8)))];
    }
  }

  /**
   * get_list(file, 'iiii') reads the record of a movie header: it succeeds exactly when its
   * four ints are there, ends after them, and holds those ints.
   */
  lemma MovieRecord(data: Bytes, p: nat)
    ensures ListAt(data, p, "iiii").Ok? <==> p + 16 <= |data|
    ensures ListAt(data, p, "iiii").Err? ==> ListAt(data, p, "iiii").error == Truncated
    ensures ListAt(data, p, "iiii").Ok? ==>
      ListAt(data, p, "iiii").value ==
      ([IntV(Int32(WordAt(data, p))), IntV(Int32(WordAt(data, p + 4))),
        IntV(Int32(WordAt(data, p + 8))), IntV(Int32(WordAt(data, p + 12)))], p + 16)
  {
    var fmt := "iiii";
    assert fmt[0] == 'i' && fmt[1] == 'i' && fmt[2] == 'i' && fmt[3] == 'i';
    ListAtWordsOnly(data, p, fmt);
    var r := ListAt(data, p, fmt);
    if r.Ok? {
      var vs := r.value.0;
      assert vs[0] == IntV(Int32(WordAt(data, p + 4 * 0)));
      assert vs[1] == IntV(Int32(WordAt(data, p + 4 * 1)));
      assert vs[2] == IntV(Int32(WordAt(data, p + 4 * 2)));
      assert vs[3] == IntV(Int32(WordAt(data, p + 4 * 3)));
      assert vs == [IntV(Int32(WordAt(data, p))), IntV(Int32(WordAt(data, p + 4))),
        IntV(Int32(WordAt(data, p + 8))), IntV(Int32(WordAt(data, p + 12)))];
    }
  }

  /**
   * The keys of each header record are distinct, so get_dict maps every key to the field at
   * its own position (DictOfFields), and the readers below name the fields by position.
   */
  lemma RecordKeysDistinct()
    ensures forall a, b :: 0 <= a < b < |CommonKeys| ==> CommonKeys[a] != CommonKeys[b]
    ensures forall a, b :: 0 <= a < b < |FieldsKeys| ==> FieldsKeys[a] != FieldsKeys[b]
    ensures forall a, b :: 0 <= a < b < |MovieKeys| ==> MovieKeys[a] != MovieKeys[b]
  {
  }

  /** get_dict keeps all four fields of the common record, each under its own key. */
  lemma CommonDict(vals: seq<Value>)
    requires |vals| == 4
    ensures DictOf(CommonKeys, vals).Keys == {"dump_type", "dversion", "title", "revision"}
    ensures DictOf(CommonKeys, vals)["dump_type"] == vals[0] && DictOf(CommonKeys, vals)["dversion"] == vals[1]
    ensures DictOf(CommonKeys, vals)["title"] == vals[2] && DictOf(CommonKeys, vals)["revision"] == vals[3]
  {
    DictOf4(CommonKeys, vals);
  }

  /** get_dict keeps all three fields of the fields record, each under its own key. */
  lemma FieldsDict(vals: seq<Value>)
    requires |vals| == 3
    ensures DictOf(FieldsKeys, vals).Keys == {"timestamp", "geometry", "domains"}
    ensures DictOf(FieldsKeys, vals)["timestamp"] == vals[0] && DictOf(FieldsKeys, vals)["geometry"] == vals[1]
    ensures DictOf(FieldsKeys, vals)["domains"] == vals[2]
  {
    DictOf3(FieldsKeys, vals);
  }

  /** get_dict keeps all four fields of the movie record, each under its own key. */
  lemma MovieDict(vals: seq<Value>)
    requires |vals| == 4
    ensures DictOf(MovieKeys, vals).Keys == {"geometry", "sflagsx", "sflagsy", "sflagsz"}
    ensures DictOf(MovieKeys, vals)["geometry"] == vals[0] && DictOf(MovieKeys, vals)["sflagsx"] == vals[1]
    ensures DictOf(MovieKeys, vals)["sflagsy"] == vals[2] && DictOf(MovieKeys, vals)["sflagsz"] == vals[3]
  {
    DictOf4(MovieKeys, vals);
  }

  // ---------------------------------------------------------------- decoders

  /** The declared quantities of a fields header: a count `n`, `n` names, then `n` units, paired by position. */
  function QuantitiesAt(data: Bytes, p: nat): (r: Result<(seq<(Bytes, Bytes)>, nat)>)
    ensures r.Ok? ==> p + 4 <= r.value.1 && p + 4 <= |data|
    ensures r.Ok? ==> |r.value.0| == Max(Int32(WordAt(data, p)), 0)
  {
    var n :- IntAt(data, p);
    var names :- StrsAt(data, p + 4, Max(n, 0));
    var units :- StrsAt(data, names.1, Max(n, 0));
    Ok((Zip(names.0, units.0), units.1))
  }

  /** The body of a fields or scalars header: 'fii', then the declared quantities. */
  function FieldsBodyAt(data: Bytes, p: nat): (r: Result<(Body, nat)>)
    ensures r.Ok? ==> p <= r.value.1
    ensures r.Ok? ==> r.value.0.FieldsBody?
  {
    var d :- ListAt(data, p, "fii");
    var quantities :- QuantitiesAt(data, d.1);
    Ok((FieldsBody(d.0[0].w, d.0[1].i, d.0[2].i, quantities.0), quantities.1))
  }

  /**
   * A fields header body is the timestamp word, the geometry and domain count, then the
   * quantity count `n` and `n` (name, unit) pairs.
   */
  lemma FieldsBodyLayout(data: Bytes, p: nat)
    ensures FieldsBodyAt(data, p).Ok? ==>
      var b := FieldsBodyAt(data, p).value.0;
      p + 16 <= |data| && b.timestamp == WordAt(data, p) &&
      b.geometry == Int32(WordAt(data, p + 4)) && b.domains == Int32(WordAt(data, p + 8)) &&
      |b.quantities| == Max(Int32(WordAt(data, p + 12)), 0)
    ensures p + 12 > |data| ==> FieldsBodyAt(data, p) == Err(Truncated)
  {
    FieldsRecord(data, p);
  }

  /**
   * The enabled params of a movie header: a count `n`, `n` flags, then `n` units. The count
   * is checked against the known label lists only after the flags and units are read.
   */
  function ParamsAt(data: Bytes, p: nat): (r: Result<(seq<(string, Bytes)>, nat)>)
    ensures r.Ok? ==> p <= r.value.1
  {
    var n :- IntAt(data, p);
    var flags :- FlagsAt(data, p + 4, Max(n, 0));
    var units :- StrsAt(data, flags.1, Max(n, 0));
    var labels :- MovieLabels(n);
    Ok((SelectParams(labels, units.0, flags.0), units.1))
  }

  /** The body of a movie header: 'iiii', then the enabled params. */
  function MovieBodyAt(data: Bytes, p: nat): (r: Result<(Body, nat)>)
    ensures r.Ok? ==> p <= r.value.1
    ensures r.Ok? ==> r.value.0.MovieBody?
  {
    var d :- ListAt(data, p, "iiii");
    var params :- ParamsAt(data, d.1);
    Ok((MovieBody(d.0[0].i, d.0[1].i, d.0[2].i, d.0[3].i, params.0), params.1))
  }

  /** A movie header body is four ints, then the params, which start 16 bytes in. */
  lemma MovieBodyLayout(data: Bytes, p: nat)
    ensures MovieBodyAt(data, p).Ok? ==>
      var b := MovieBodyAt(data, p).value.0;
      p + 16 <= |data| && b.geometry == Int32(WordAt(data, p)) &&
      b.sflagsx == Int32(WordAt(data, p + 4)) && b.sflagsy == Int32(WordAt(data, p + 8)) &&
      b.sflagsz == Int32(WordAt(data, p + 12)) && b.params == ParamsAt(data, p + 16).value.0
    ensures p + 16 > |data| ==> MovieBodyAt(data, p) == Err(Truncated)
  {
    MovieRecord(data, p);
  }

  /** The body of an extraction header: the geometry, a count `n`, then `n` names. */
  function ExtractionBodyAt(data: Bytes, p: nat): (r: Result<(Body, nat)>)
    ensures r.Ok? ==> p <= r.value.1
    ensures r.Ok? ==> r.value.0.ExtractionBody?
    ensures r.Ok? ==> p + 8 <= |data| && |r.value.0.names| == Max(Int32(WordAt(data, p + 4)), 0)
  {
    var g :- IntAt(data, p);
    var n :- IntAt(data, p + 4);
    var names :- StrsAt(data, p + 8, Max(n, 0));
    Ok((ExtractionBody(g, names.0), names.1))
  }

  /** The body that follows a common record with dump type `dumpType`. */
  function BodyAt(data: Bytes, p: nat, dumpType: int): (r: Result<(Body, nat)>)
    ensures r.Ok? ==> p <= r.value.1
    ensures r.Ok? ==>
      (r.value.0.FieldsBody? <==> dumpType == 2 || dumpType == 3) &&
      (r.value.0.MovieBody? <==> dumpType == 6) &&
      (r.value.0.ExtractionBody? <==> dumpType == 10)
    ensures dumpType !in {2, 3, 6, 10} ==> r == Err(UnknownDumpType(dumpType))
  {
    if dumpType == 2 || dumpType == 3 then FieldsBodyAt(data, p)
    else if dumpType == 6 then MovieBodyAt(data, p)
    else if dumpType == 10 then ExtractionBodyAt(data, p)
    else Err(UnknownDumpType(dumpType))
  }

  /** get_header: the common 'iiss' record, then the body its dump type selects. */
  function HeaderAt(data: Bytes, p: nat): (r: Result<(Header, nat)>)
    ensures r.Ok? ==> p <= r.value.1
  {
    var common :- ListAt(data, p, "iiss");
    var c := common.0;
    var body :- BodyAt(data, common.1, c[0].i);
    Ok((Header(c[0].i, c[1].i, c[2].s, c[3].s, body.0), body.1))
  }

  /**
   * A header is accepted only with dump type 2, 3, 6 or 10, and its body is the one its dump
   * type selects; a readable common record with any other dump type is rejected naming it.
   */
  lemma HeaderDumpTypes(data: Bytes, p: nat)
    ensures HeaderAt(data, p).Ok? ==>
      var h := HeaderAt(data, p).value.0;
      h.dumpType in {2, 3, 6, 10} && h.dumpType == Int32(WordAt(data, p)) &&
      (h.body.FieldsBody? <==> h.dumpType == 2 || h.dumpType == 3) &&
      (h.body.MovieBody? <==> h.dumpType == 6) &&
      (h.body.ExtractionBody? <==> h.dumpType == 10)
    ensures ListAt(data, p, "iiss").Ok? && Int32(WordAt(data, p)) !in {2, 3, 6, 10} ==>
      HeaderAt(data, p) == Err(UnknownDumpType(Int32(WordAt(data, p))))
  {
    CommonRecord(data, p);
  }

  // ---------------------------------------------------------------- readers

  /** `[bool(get_int(file)) for i in range(n)]` */
  method GetFlags(s: Stream, n: nat) returns (r: Result<seq<bool>>)
    modifies s
    ensures r == Values(FlagsAt(s.data, old(s.pos), n))
    ensures r.Ok? ==> s.pos == old(s.pos) + 4 * n
  {
    ghost var p := s.pos;
    var out: seq<bool> := [];
    var i := 0;
    PrependAtNil(FlagsAt(s.data, p, n));
    while i < n
      invariant 0 <= i <= n
      invariant FlagsAt(s.data, p, n) == PrependAt(out, FlagsAt(s.data, s.pos, n - i))
    {
      FlagsAtAdvance(FlagsAt(s.data, p, n), out, s.data, s.pos, n - i);
      var x := s.GetInt();
      if x.Err? {
        return Err(x.error);
      }
      out := out + [x.value != 0];
      i := i + 1;
    }
    assert out + [] == out;
    r := Ok(out);
  }

  method GetQuantities(s: Stream) returns (r: Result<seq<(Bytes, Bytes)>>)
    modifies s
    ensures r == Values(QuantitiesAt(s.data, old(s.pos)))
    ensures r.Ok? ==> s.pos == QuantitiesAt(s.data, old(s.pos)).value.1
  {
    var n :- s.GetInt();
    var names :- s.GetStrs(Max(n, 0));
    var units :- s.GetStrs(Max(n, 0));
    r := Ok(Zip(names, units));
  }

  method GetFieldsBody(s: Stream) returns (r: Result<Body>)
    modifies s
    ensures r == Values(FieldsBodyAt(s.data, old(s.pos)))
    ensures r.Ok? ==> s.pos == FieldsBodyAt(s.data, old(s.pos)).value.1
  {
    ghost var p := s.pos;
    var d :- s.GetDict("fii", FieldsKeys);
    FieldsDict(ListAt(s.data, p, "fii").value.0);
    var quantities :- GetQuantities(s);
    r := Ok(FieldsBody(d["timestamp"].w, d["geometry"].i, d["domains"].i, quantities));
  }

  method GetParams(s: Stream) returns (r: Result<seq<(string, Bytes)>>)
    modifies s
    ensures r == Values(ParamsAt(s.data, old(s.pos)))
    ensures r.Ok? ==> s.pos == ParamsAt(s.data, old(s.pos)).value.1
  {
    var n :- s.GetInt();
    var flags :- GetFlags(s, Max(n, 0));
    var units :- s.GetStrs(Max(n, 0));
    var labels :- MovieLabels(n);
    r := Ok(SelectParams(labels, units, flags));
  }

  method GetMovieBody(s: Stream) returns (r: Result<Body>)
    modifies s
    ensures r == Values(MovieBodyAt(s.data, old(s.pos)))
    ensures r.Ok? ==> s.pos == MovieBodyAt(s.data, old(s.pos)).value.1
  {
    ghost var p := s.pos;
    var d :- s.GetDict("iiii", MovieKeys);
    MovieDict(ListAt(s.data, p, "iiii").value.0);
    var params :- GetParams(s);
    r := Ok(MovieBody(d["geometry"].i, d["sflagsx"].i, d["sflagsy"].i, d["sflagsz"].i, params));
  }

  method GetExtractionBody(s: Stream) returns (r: Result<Body>)
    modifies s
    ensures r == Values(ExtractionBodyAt(s.data, old(s.pos)))
    ensures r.Ok? ==> s.pos == ExtractionBodyAt(s.data, old(s.pos)).value.1
  {
    var geometry :- s.GetInt();
    var n :- s.GetInt();
    var names :- s.GetStrs(Max(n, 0));
    r := Ok(ExtractionBody(geometry, names));
  }

  /** The common record, read with get_dict and its four fields looked up by key. */
  method GetCommon(s: Stream) returns (r: Result<(int, int, Bytes, Bytes)>)
    modifies s
    ensures r.Ok? <==> ListAt(s.data, old(s.pos), "iiss").Ok?
    ensures r.Err? ==> r.error == ListAt(s.data, old(s.pos), "iiss").error
    ensures r.Ok? ==>
      var c := ListAt(s.data, old(s.pos), "iiss").value;
      r.value == (c.0[0].i, c.0[1].i, c.0[2].s, c.0[3].s) && s.pos == c.1
  {
    ghost var p := s.pos;
    var common :- s.GetDict("iiss", CommonKeys);
    CommonDict(ListAt(s.data, p, "iiss").value.0);
    r := Ok((common["dump_type"].i, common["dversion"].i, common["title"].s, common["revision"].s));
  }

  /**
   * get_header(file): each record is read with get_dict and its fields looked up by key;
   * leaves the stream just after the header.
   */
  method GetHeader(s: Stream) returns (r: Result<Header>)
    modifies s
    ensures r == Values(HeaderAt(s.data, old(s.pos)))
    ensures r.Ok? ==> s.pos == HeaderAt(s.data, old(s.pos)).value.1
  {
    var common :- GetCommon(s);
    var (dumpType, dversion, title, revision) := common;
    var body: Body;
    if dumpType == 2 || dumpType == 3 {
      body :- GetFieldsBody(s);
    } else if dumpType == 6 {
      body :- GetMovieBody(s);
    } else if dumpType == 10 {
      body :- GetExtractionBody(s);
    } else {
      return Err(UnknownDumpType(dumpType));
    }
    r := Ok(Header(dumpType, dversion, title, revision, body));
  }
}
