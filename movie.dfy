/**
 * read_pmovie_ll: the frames of a particle movie dump (dump type 6), read after its header.
 * The payload is a run of frames, each a (t, step, pnum) record followed by `pnum` particle
 * rows; a row is the particle id and one float word per enabled param, so a row is
 * `(nparams + 1) * 4` bytes long.
 *
 * The reader works in two passes. Pass 1 walks the frame records until the end of the stream,
 * noting where each frame's rows start and seeking over them. Pass 2 goes back to each noted
 * offset, reads the rows of that frame, stores them and drops the offset.
 */
module Movie {
  import opened Wire
  import opened Streams
  import opened Headers

  /** One particle row: its id ('ip', a big-endian int), then one float word per enabled param. */
  datatype Particle = Particle(ip: int, values: seq<Word>)

  /**
   * A frame dict. Pass 1 builds it with the frame record and the offset of its rows ('pos');
   * pass 2 replaces the offset by the decoded rows ('data').
   */
  datatype Frame =
    | Indexed(t: Word, step: int, pnum: int, pos: nat)
    | Loaded(t: Word, step: int, pnum: int, data: seq<Particle>)

  // ---------------------------------------------------------------- the params

  /**
   * `params, _ = zip(*header['params'])`: the labels of the enabled params. Only a movie
   * header has params, and unpacking the pairs of an empty list fails.
   */
  function ParamNames(h: Header): (r: Result<seq<string>>)
    ensures r.Ok? <==> h.body.MovieBody? && h.body.params != []
    ensures r.Ok? ==> |r.value| == |h.body.params| && forall k :: 0 <= k < |r.value| ==> r.value[k] == h.body.params[k].0
    ensures !h.body.MovieBody? ==> r == Err(MissingKey("params"))
    ensures h.body.MovieBody? && h.body.params == [] ==> r == Err(NoParams)
  {
    if !h.body.MovieBody? then Err(MissingKey("params"))
    else if h.body.params == [] then Err(NoParams)
    else Ok(seq(|h.body.params|, k requires 0 <= k < |h.body.params| => h.body.params[k].0))
  }

  /** `pbytes = (nparams + 1) * 4`: the bytes of one particle row. */
  function RowBytes(nparams: nat): nat {
    4 * nparams + 4
  }

  // ---------------------------------------------------------------- pass 1

  /** A frame record at `p`: t, step and pnum, when the stream still holds its three words. */
  function FrameHeadAt(data: Bytes, p: nat): (r: Result<(Word, int, int)>)
    ensures r.Ok? <==> p + 12 <= |data|
    ensures r.Err? ==> r.error == Truncated
  {
    if p + 12 <= |data| then Ok((WordAt(data, p), Int32(WordAt(data, p + 4)), Int32(WordAt(data, p + 8))))
    else Err(Truncated)
  }

  /**
   * One turn of pass 1 at `p`: the frame record, noted with the offset right after it, and the
   * offset `pnum * pbytes` bytes on, where the next turn starts. A negative `pnum` is rejected
   * (see IndexStepAsWritten for the unchecked seek).
   */
  function FrameAt(data: Bytes, p: nat, pbytes: nat): (r: Result<(Frame, nat)>)
    ensures r.Ok? <==> p + 12 <= |data| && Int32(WordAt(data, p + 8)) >= 0
    ensures r.Ok? ==>
      r.value.0 == Indexed(WordAt(data, p), Int32(WordAt(data, p + 4)), Int32(WordAt(data, p + 8)), p + 12) &&
      r.value.1 == p + 12 + Mul(Int32(WordAt(data, p + 8)), pbytes)
    ensures r.Err? ==> r.error == Truncated || r.error.NegativeCount?
  {
    var h :- FrameHeadAt(data, p);
    if h.2 < 0 then Err(NegativeCount(h.2))
    else Ok((Indexed(h.0, h.1, h.2, p + 12), p + 12 + Mul(h.2, pbytes)))
  }

  /**
   * Pass 1 from offset `p`, with the frames found so far in `frames`: until the stream is
   * exhausted, one frame per turn.
   */
  function IndexFrom(data: Bytes, p: nat, pbytes: nat, frames: seq<Frame>): (r: Result<seq<Frame>>)
    ensures r.Ok? ==> |frames| <= |r.value| && r.value[..|frames|] == frames
    ensures r.Ok? ==> forall k :: |frames| <= k < |r.value| ==> r.value[k].Indexed? && r.value[k].pnum >= 0
    ensures r.Err? ==> r.error == Truncated || r.error.NegativeCount?
    decreases Remaining(data, p)
  {
    if p >= |data| then Ok(frames)
    else
      var f :- FrameAt(data, p, pbytes);
      IndexFrom(data, f.1, pbytes, frames + [f.0])
  }

  /** The keys pass 1 gives the fields of a frame record. */
  const FrameKeys: seq<string> := ["t", "step", "pnum"]

  /** The frame record keys are distinct, so get_dict maps each to the field at its position. */
  lemma FrameKeysDistinct()
    ensures forall a, b :: 0 <= a < b < |FrameKeys| ==> FrameKeys[a] != FrameKeys[b]
  {
  }

  /** get_dict keeps all three fields of a frame record, each under its own key. */
  lemma FrameDict(vals: seq<Value>)
    requires |vals| == 3
    ensures DictOf(FrameKeys, vals).Keys == {"t", "step", "pnum"}
    ensures DictOf(FrameKeys, vals)["t"] == vals[0] && DictOf(FrameKeys, vals)["step"] == vals[1]
    ensures DictOf(FrameKeys, vals)["pnum"] == vals[2]
  {
    DictOf3(FrameKeys, vals);
  }

  /** get_list(file, 'fii') reads a frame record: a float and two ints, when its three words are there. */
  lemma FrameRecord(data: Bytes, p: nat)
    ensures ListAt(data, p, "fii").Ok? <==> FrameHeadAt(data, p).Ok?
    ensures ListAt(data, p, "fii").Err? ==> ListAt(data, p, "fii").error == Truncated
    ensures ListAt(data, p, "fii").Ok? ==>
      var h := FrameHeadAt(data, p).value;
      ListAt(data, p, "fii").value == ([FloatV(h.0), IntV(h.1), IntV(h.2)], p + 12)
  {
    FieldsRecord(data, p);
  }

  /**
   * The frames of a movie from offset `p`, as a reference: each frame record is three words
   * (t, step, pnum) with a non-negative pnum, its rows start right after it, the next record
   * starts `pnum` rows later, and the list ends exactly when an offset reaches the end.
   */
  predicate Chain(data: Bytes, p: nat, pbytes: nat, frames: seq<Frame>)
    ensures Chain(data, p, pbytes, frames) ==>
      forall k :: 0 <= k < |frames| ==> frames[k].Indexed? && frames[k].pnum >= 0 && frames[k].pos <= |data|
    decreases |frames|
  {
    if frames == [] then p >= |data|
    else
      p + 12 <= |data| && Int32(WordAt(data, p + 8)) >= 0 &&
      frames[0] == Indexed(WordAt(data, p), Int32(WordAt(data, p + 4)), Int32(WordAt(data, p + 8)), p + 12) &&
      Chain(data, p + 12 + Mul(Int32(WordAt(data, p + 8)), pbytes), pbytes, frames[1..])
  }

  /** Pass 1 finds the frames of the chain from `p`, after those already found. */
  lemma {:induction false} IndexFromIsChain(data: Bytes, p: nat, pbytes: nat, frames: seq<Frame>)
    requires IndexFrom(data, p, pbytes, frames).Ok?
    ensures Chain(data, p, pbytes, IndexFrom(data, p, pbytes, frames).value[|frames|..])
    decreases Remaining(data, p)
  {
    var r := IndexFrom(data, p, pbytes, frames).value;
    if p >= |data| {
      assert r[|frames|..] == [];
    } else {
      var f := FrameAt(data, p, pbytes).value.0;
      var q := FrameAt(data, p, pbytes).value.1;
      IndexFromIsChain(data, q, pbytes, frames + [f]);
      assert r[|frames|..][0] == f;
      assert r[|frames|..][1..] == r[|frames + [f]|..];
    }
  }

  /** Appending a non-empty list is appending its first element, then the rest. */
  lemma AppendFirst<T>(xs: seq<T>, ys: seq<T>)
    requires ys != []
    ensures xs + [ys[0]] + ys[1..] == xs + ys
  {
    assert [ys[0]] + ys[1..] == ys;
  }

  /** The first frame of a chain is pass 1's turn at `p`, and the rest of the chain starts where that turn ends. */
  lemma ChainStep(data: Bytes, p: nat, pbytes: nat, frames: seq<Frame>, chain: seq<Frame>)
    requires chain != [] && Chain(data, p, pbytes, chain)
    ensures p < |data|
    ensures Chain(data, p + 12 + Mul(Int32(WordAt(data, p + 8)), pbytes), pbytes, chain[1..])
    ensures IndexFrom(data, p, pbytes, frames) ==
      IndexFrom(data, p + 12 + Mul(Int32(WordAt(data, p + 8)), pbytes), pbytes, frames + [chain[0]])
  {
    assert FrameAt(data, p, pbytes) == Ok((chain[0], p + 12 + Mul(Int32(WordAt(data, p + 8)), pbytes)));
  }

  /** Every chain from `p` is what pass 1 finds there: the frames of a movie are unique. */
  lemma {:induction false} ChainIsIndexFrom(data: Bytes, p: nat, pbytes: nat, frames: seq<Frame>, chain: seq<Frame>)
    requires Chain(data, p, pbytes, chain)
    ensures IndexFrom(data, p, pbytes, frames) == Ok(frames + chain)
    decreases |chain|
  {
    if chain == [] {
      assert frames + chain == frames;
    } else {
      var q := p + 12 + Mul(Int32(WordAt(data, p + 8)), pbytes);
      ChainStep(data, p, pbytes, frames, chain);
      ChainIsIndexFrom(data, q, pbytes, frames + [chain[0]], chain[1..]);
      AppendFirst(frames, chain);
    }
  }

  // ---------------------------------------------------------------- pass 2

  /** The particle row at offset `q` of a buffer. */
  function ParticleAt(data: Bytes, q: nat, nparams: nat): (pt: Particle)
    requires RowBytes(nparams) <= Remaining(data, q)
    ensures |pt.values| == nparams
  {
    Particle(Int32(WordAt(data, q)), WordsFrom(data, q + 4, nparams))
  }

  /** `n` consecutive particle rows from offset `q`. */
  function ParticlesFrom(data: Bytes, q: nat, n: nat, nparams: nat): (ps: seq<Particle>)
    requires Mul(n, RowBytes(nparams)) <= Remaining(data, q)
    ensures |ps| == n
    decreases n
  {
    if n == 0 then [] else [ParticleAt(data, q, nparams)] + ParticlesFrom(data, q + RowBytes(nparams), n - 1, nparams)
  }

  /** Row `k` of a run of rows starts `k` rows after the run. */
  lemma {:induction false} ParticlesFromOffsets(data: Bytes, q: nat, n: nat, nparams: nat, k: nat)
    requires Mul(n, RowBytes(nparams)) <= Remaining(data, q)
    requires k < n
    ensures Mul(k, RowBytes(nparams)) + RowBytes(nparams) <= Remaining(data, q)
    ensures ParticlesFrom(data, q, n, nparams)[k] == ParticleAt(data, q + Mul(k, RowBytes(nparams)), nparams)
    decreases k
  {
    if k > 0 {
      ParticlesFromOffsets(data, q + RowBytes(nparams), n - 1, nparams, k - 1);
    }
  }

  /**
   * `np.frombuffer(file.read(N * 4 * len(lt)), dtype=lt, count=N)` at offset `q`: `n` rows,
   * rejected when the read comes back short.
   */
  function ParticlesAt(data: Bytes, q: nat, n: nat, nparams: nat): (r: Result<seq<Particle>>)
    ensures r.Ok? <==> Mul(n, RowBytes(nparams)) <= Remaining(data, q)
    ensures r.Err? ==> r.error == Truncated
    ensures r.Ok? ==> |r.value| == n
  {
    var buf := Take(data, q, Min(Mul(n, RowBytes(nparams)), Remaining(data, q)));
    if |buf| < Mul(n, RowBytes(nparams)) then Err(Truncated)
    else Ok(ParticlesFrom(buf, 0, n, nparams))
  }

  /** The row at offset `o` of the bytes read at `q` is the row at `q + o` of the stream. */
  lemma ParticleAtTake(data: Bytes, q: nat, len: nat, o: nat, nparams: nat)
    requires len <= Remaining(data, q)
    requires o + RowBytes(nparams) <= len
    ensures ParticleAt(Take(data, q, len), o, nparams) == ParticleAt(data, q + o, nparams)
  {
    var buf := Take(data, q, len);
    var a := WordsFrom(buf, o + 4, nparams);
    var b := WordsFrom(data, q + o + 4, nparams);
    forall k | 0 <= k < nparams ensures a[k] == b[k] {
      var x := o + 4 + 4 * k;
      assert buf[x] == data[q + x] && buf[x + 1] == data[q + x + 1];
      assert buf[x + 2] == data[q + x + 2] && buf[x + 3] == data[q + x + 3];
    }
    assert buf[o] == data[q + o] && buf[o + 1] == data[q + o + 1];
    assert buf[o + 2] == data[q + o + 2] && buf[o + 3] == data[q + o + 3];
  }

  /**
   * Row `k` of a frame whose rows start at `q` is read from `q + k * pbytes`: its id is the
   * int there and its params are the words after it.
   */
  lemma ParticleOffsets(data: Bytes, q: nat, n: nat, nparams: nat, k: nat)
    requires ParticlesAt(data, q, n, nparams).Ok?
    requires k < n
    ensures q + k * RowBytes(nparams) + RowBytes(nparams) <= |data|
    ensures ParticlesAt(data, q, n, nparams).value[k] ==
      Particle(Int32(WordAt(data, q + k * RowBytes(nparams))), WordsFrom(data, q + k * RowBytes(nparams) + 4, nparams))
  {
    var len := Mul(n, RowBytes(nparams));
    ParticlesFromOffsets(Take(data, q, len), 0, n, nparams, k);
    MulIsProduct(k, RowBytes(nparams));
    ParticleAtTake(data, q, len, Mul(k, RowBytes(nparams)), nparams);
  }

  /** The indexed frames from `i` on, each with its offset and a count that is not negative. */
  predicate AllIndexed(frames: seq<Frame>, i: nat) {
    forall k :: i <= k < |frames| ==> frames[k].Indexed? && frames[k].pnum >= 0
  }

  /**
   * Pass 2 from frame `i`: each frame in turn gets its rows from its noted offset, and its
   * offset is dropped; the first short read ends it.
   */
  function LoadFrom(data: Bytes, frames: seq<Frame>, i: nat, nparams: nat): (r: Result<seq<Frame>>)
    requires i <= |frames| && AllIndexed(frames, i)
    ensures r.Ok? ==> |r.value| == |frames|
    ensures r.Err? ==> r.error == Truncated
    decreases |frames| - i
  {
    if i == |frames| then Ok(frames)
    else
      var f := frames[i];
      var ps :- ParticlesAt(data, f.pos, f.pnum, nparams);
      LoadFrom(data, frames[i := Loaded(f.t, f.step, f.pnum, ps)], i + 1, nparams)
  }

  /** Pass 2 leaves the frames before `i` as they are and loads every frame from `i` on. */
  lemma {:induction false} LoadFromFrames(data: Bytes, frames: seq<Frame>, i: nat, nparams: nat, k: nat)
    requires i <= |frames| && AllIndexed(frames, i)
    requires LoadFrom(data, frames, i, nparams).Ok?
    requires k < |frames|
    ensures k < i ==> LoadFrom(data, frames, i, nparams).value[k] == frames[k]
    ensures i <= k ==>
      var f := frames[k];
      ParticlesAt(data, f.pos, f.pnum, nparams).Ok? &&
      LoadFrom(data, frames, i, nparams).value[k] == Loaded(f.t, f.step, f.pnum, ParticlesAt(data, f.pos, f.pnum, nparams).value)
    decreases |frames| - i
  {
    if i < |frames| {
      var f := frames[i];
      var ps := ParticlesAt(data, f.pos, f.pnum, nparams).value;
      LoadFromFrames(data, frames[i := Loaded(f.t, f.step, f.pnum, ps)], i + 1, nparams, k);
    }
  }

  /** One frame of pass 2. */
  lemma LoadFromStep(data: Bytes, frames: seq<Frame>, i: nat, nparams: nat)
    requires i < |frames| && AllIndexed(frames, i)
    ensures
      var f := frames[i];
      var ps := ParticlesAt(data, f.pos, f.pnum, nparams);
      (ps.Err? ==> LoadFrom(data, frames, i, nparams) == Err(ps.error)) &&
      (ps.Ok? ==> LoadFrom(data, frames, i, nparams) == LoadFrom(data, frames[i := Loaded(f.t, f.step, f.pnum, ps.value)], i + 1, nparams))
  {
  }

  // ---------------------------------------------------------------- read_pmovie_ll

  /** read_pmovie_ll(file, header) with the file at offset `p`. */
  function PmovieAt(data: Bytes, p: nat, h: Header): (r: Result<seq<Frame>>)
    ensures ParamNames(h).Err? ==> r == Err(ParamNames(h).error)
    ensures r.Ok? ==> ParamNames(h).Ok? && IndexFrom(data, p, RowBytes(|ParamNames(h).value|), []).Ok?
    ensures r.Ok? ==> |r.value| == |IndexFrom(data, p, RowBytes(|ParamNames(h).value|), []).value|
  {
    var names :- ParamNames(h);
    var frames :- IndexFrom(data, p, RowBytes(|names|), []);
    LoadFrom(data, frames, 0, |names|)
  }

  /**
   * read_pmovie_ll returns one frame per frame record of the stream, in order: frame `k`
   * keeps the record's t, step and pnum, loses its offset, and holds `pnum` rows read from
   * the offset right after its record.
   */
  lemma PmovieFrames(data: Bytes, p: nat, h: Header, k: nat)
    requires PmovieAt(data, p, h).Ok?
    ensures ParamNames(h).Ok? && IndexFrom(data, p, RowBytes(|ParamNames(h).value|), []).Ok?
    ensures
      var nparams := |ParamNames(h).value|;
      var index := IndexFrom(data, p, RowBytes(nparams), []).value;
      var frames := PmovieAt(data, p, h).value;
      Chain(data, p, RowBytes(nparams), index) && |frames| == |index| &&
      (k < |frames| ==>
        frames[k].Loaded? && frames[k].t == index[k].t && frames[k].step == index[k].step &&
        frames[k].pnum == index[k].pnum && |frames[k].data| == index[k].pnum &&
        ParticlesAt(data, index[k].pos, index[k].pnum, nparams) == Ok(frames[k].data))
  {
    var nparams := |ParamNames(h).value|;
    var index := IndexFrom(data, p, RowBytes(nparams), []).value;
    IndexFromIsChain(data, p, RowBytes(nparams), []);
    assert index[0..] == index;
    if k < |index| {
      LoadFromFrames(data, index, 0, nparams, k);
    }
  }

  /** A header that is not a movie header, or has no enabled param, is rejected before any read. */
  lemma PmovieRejectsHeader(data: Bytes, p: nat, h: Header)
    ensures !h.body.MovieBody? ==> PmovieAt(data, p, h) == Err(MissingKey("params"))
    ensures h.body.MovieBody? && h.body.params == [] ==> PmovieAt(data, p, h) == Err(NoParams)
  {
  }

  // ---------------------------------------------------------------- the pass 1 seek as written

  /**
   * One frame of pass 1 as written: the record, then a relative seek of `pnum * pbytes` from
   * the offset after it, whatever the sign of `pnum`. The result is the offset pass 1 goes on
   * from.
   */
  function IndexStepAsWritten(data: Bytes, p: nat, pbytes: nat): (r: Result<int>)
    ensures r.Ok? ==> p + 12 <= |data| && r.value == p + 12 + Int32(WordAt(data, p + 8)) * pbytes
  {
    var h :- FrameHeadAt(data, p);
    Ok(p + 12 + h.2 * pbytes)
  }

  /**
   * As written, a frame record whose payload length `pnum * pbytes` is -12 sends pass 1 back
   * to its own start: the stream is not at its end there, so the same record is read again
   * and again. With two enabled params (12-byte rows) a frame record of t = 0, step = 0,
   * pnum = -1 is one.
   */
  lemma IndexStepAsWrittenRepeats()
    ensures
      var data := EncodeWord(0) + EncodeInt(0) + EncodeInt(-1);
      0 < |data| && IndexStepAsWritten(data, 0, RowBytes(2)) == Ok(0)
  {
    var data := EncodeWord(0) + EncodeInt(0) + EncodeInt(-1);
    WordRoundTrip(data, 8, Int32Word(-1));
  }

  // ---------------------------------------------------------------- readers

  /** `get_dict(file, 'fii', ['t', 'step', 'pnum'])`: one frame record. */
  method GetFrameHead(s: Stream) returns (r: Result<(Word, int, int)>)
    modifies s
    ensures r == FrameHeadAt(s.data, old(s.pos))
    ensures r.Ok? ==> s.pos == old(s.pos) + 12
  {
    ghost var p := s.pos;
    FrameRecord(s.data, p);
    var d :- s.GetDict("fii", FrameKeys);
    FrameDict(ListAt(s.data, p, "fii").value.0);
    r := Ok((d["t"].w, d["step"].i, d["pnum"].i));
  }

  /**
   * One turn of pass 1: `frame = get_dict(...)`, `frame['pos'] = file.tell()`, then
   * `file.seek(frame['pnum'] * pbytes, 1)`.
   */
  method IndexFrame(s: Stream, pbytes: nat) returns (r: Result<Frame>)
    modifies s
    ensures r == Values(FrameAt(s.data, old(s.pos), pbytes))
    ensures r.Ok? ==> s.pos == FrameAt(s.data, old(s.pos), pbytes).value.1
  {
    var h :- GetFrameHead(s);
    var pos := s.Tell();
    var (t, step, pnum) := h;
    if pnum < 0 {
      return Err(NegativeCount(pnum));
    }
    s.Skip(Mul(pnum, pbytes));
    r := Ok(Indexed(t, step, pnum, pos));
  }

  /** Pass 1: `while not iseof(file)`, one frame record and one seek over its rows per turn. */
  method IndexFrames(s: Stream, pbytes: nat) returns (r: Result<seq<Frame>>)
    modifies s
    ensures r == IndexFrom(s.data, old(s.pos), pbytes, [])
  {
    var frames: seq<Frame> := [];
    ghost var whole := IndexFrom(s.data, s.pos, pbytes, []);
    var eof := s.IsEof();
    while !eof
      invariant eof <==> s.pos >= |s.data|
      invariant whole == IndexFrom(s.data, s.pos, pbytes, frames)
      decreases Remaining(s.data, s.pos)
    {
      var f :- IndexFrame(s, pbytes);
      frames := frames + [f];
      eof := s.IsEof();
    }
    r := Ok(frames);
  }

  /** Pass 2: each frame's rows read at its noted offset, stored in the frame, the offset dropped. */
  method LoadFrames(s: Stream, index: seq<Frame>, nparams: nat) returns (r: Result<seq<Frame>>)
    requires AllIndexed(index, 0)
    modifies s
    ensures r == LoadFrom(s.data, index, 0, nparams)
  {
    var frames := index;
    ghost var whole := LoadFrom(s.data, frames, 0, nparams);
    var i := 0;
    while i < |frames|
      invariant 0 <= i <= |frames| && AllIndexed(frames, i)
      invariant whole == LoadFrom(s.data, frames, i, nparams)
    {
      LoadFromStep(s.data, frames, i, nparams);
      var f := frames[i];
      s.Seek(f.pos);
      var len := Mul(f.pnum, RowBytes(nparams));
      var buf := s.Read(len);
      if |buf| < len {
        return Err(Truncated);
      }
      var ps := ParticlesFrom(buf, 0, f.pnum, nparams);
      frames := frames[i := Loaded(f.t, f.step, f.pnum, ps)];
      i := i + 1;
    }
    r := Ok(frames);
  }

  /** read_pmovie_ll(file, header), the file positioned after the header. */
  method ReadPmovieLl(s: Stream, header: Header) returns (r: Result<seq<Frame>>)
    modifies s
    ensures r == PmovieAt(s.data, old(s.pos), header)
  {
    var names :- ParamNames(header);
    var pbytes := RowBytes(|names|);
    var index :- IndexFrames(s, pbytes);
    r := LoadFrames(s, index, |names|);
  }
}
