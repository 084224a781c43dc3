/**
 * The wire format of a .p4 dump: a big-endian stream of 4-byte words in the style of
 * XDR (section 4 of RFC 4506). An int is a two's-complement word, a float is a word whose
 * bits are carried and never interpreted, and a string is two copies of its length followed
 * by its bytes padded with zeros to a multiple of four.
 *
 * Everything in this module is a pure function of the byte sequence and a read offset.
 * A decoder returns the decoded value together with the offset just after it, or the
 * error the reader raises.
 */
module Wire {

  type Byte = b: int | 0 <= b < 0x100
  type Bytes = seq<Byte>

  /** The raw bit pattern of one big-endian 4-byte word. */
  type Word = w: int | 0 <= w < 0x1_0000_0000

  /** The conditions under which a reader raises instead of returning. */
  datatype DecodeError =
    | Truncated                                       // fewer bytes left than a fixed-size read needs
    | NegativeCount(count: int)                       // an element count read from the stream is negative
    | NegativeLength(length: int)                     // a string length prefix is negative
    | UnexpectedFlag(flag: char)                      // a format string holds a letter other than i, f, d, s
    | UnknownDumpType(dumpType: int)                  // a header whose dump_type is not 2, 3, 6 or 10
    | UnsupportedParamCount(count: int)               // a movie header whose param count is not 7, 8 or 11
    | NotFieldsFile(dumpType: int)                    // read_flds given a dump that is neither fields nor scalars
    | QuantityNotAvailable(name: Bytes, available: seq<Bytes>)
    | MissingKey(key: string)                         // a header without the entry a reader looks up
    | NoParams                                        // a movie header with no enabled param
    | Misaligned(remainder: nat)                      // extraction bytes that are not a whole number of rows

  datatype Result<+T> = Ok(value: T) | Err(error: DecodeError) {
    predicate IsFailure() { Err? }

    function PropagateFailure<U>(): Result<U>
      requires Err?
    {
      Err(error)
    }

    function Extract(): T
      requires Ok?
    {
      value
    }
  }

  /** The decoded value of a decoder result, without the offset. */
  function Values<T>(r: Result<(T, nat)>): Result<T> {
    match r
    case Ok((v, _)) => Ok(v)
    case Err(e) => Err(e)
  }

  /** `r` with `xs` put in front of its decoded sequence; an error stays as it is. */
  function PrependAt<T>(xs: seq<T>, r: Result<(seq<T>, nat)>): Result<(seq<T>, nat)> {
    match r
    case Ok((ys, q)) => Ok((xs + ys, q))
    case Err(e) => Err(e)
  }

  lemma PrependAtNil<T>(r: Result<(seq<T>, nat)>)
    ensures PrependAt([], r) == r
  {
    if r.Ok? {
      assert [] + r.value.0 == r.value.0;
    }
  }

  lemma PrependAtAssoc<T>(xs: seq<T>, ys: seq<T>, r: Result<(seq<T>, nat)>)
    ensures PrependAt(xs, PrependAt(ys, r)) == PrependAt(xs + ys, r)
  {
    if r.Ok? {
      assert xs + (ys + r.value.0) == (xs + ys) + r.value.0;
    }
  }

  function Min(a: nat, b: nat): nat { if a <= b then a else b }

  function Max(a: int, b: int): int { if a >= b then a else b }

  /**
   * The product `a * b` of two naturals, by repeated addition; MulIsProduct shows it is the
   * product. The reader's sizes are products of counts read from the stream; keeping them
   * behind Mul keeps the solver away from nonlinear arithmetic until a proof asks for it.
   */
  function Mul(a: nat, b: nat): nat
    decreases a
  {
    if a == 0 then 0 else b + Mul(a - 1, b)
  }

  lemma {:induction false} MulIsProduct(a: nat, b: nat)
    ensures Mul(a, b) == a * b
    decreases a
  {
    if a > 0 {
      MulIsProduct(a - 1, b);
    }
  }

  /** The offset `n` strides of `stride` bytes after `p`. */
  function Advance(p: nat, n: nat, stride: nat): (q: nat)
    ensures p <= q
    decreases n
  {
    if n == 0 then p else Advance(p + stride, n - 1, stride)
  }

  lemma {:induction false} AdvanceIsProduct(p: nat, n: nat, stride: nat)
    ensures Advance(p, n, stride) == p + n * stride
    decreases n
  {
    if n > 0 {
      AdvanceIsProduct(p + stride, n - 1, stride);
    }
  }

  /** The stride that starts `k` strides after `p` ends no later than `n > k` strides after it. */
  lemma AdvanceBelow(p: nat, k: nat, n: nat, stride: nat)
    requires k < n
    ensures Advance(p, k, stride) + stride <= Advance(p, n, stride)
  {
    AdvanceIsProduct(p, k, stride);
    AdvanceIsProduct(p, n, stride);
    MulLe(k + 1, n, stride);
    assert (k + 1) * stride == k * stride + stride;
  }

  /** `n` strides of `stride` bytes after `p` end `Mul(n, stride)` bytes after it. */
  lemma {:induction false} AdvanceIsMul(p: nat, n: nat, stride: nat)
    ensures Advance(p, n, stride) == p + Mul(n, stride)
    decreases n
  {
    if n > 0 {
      AdvanceIsMul(p + stride, n - 1, stride);
    }
  }

  lemma MulLe(a: nat, b: nat, c: nat)
    requires a <= b
    ensures a * c <= b * c
  {
  }

  /** The number of bytes a read at offset `p` can still obtain; a file read past its end obtains none. */
  function Remaining(data: Bytes, p: nat): nat {
    if p <= |data| then |data| - p else 0
  }

  /** The `n` bytes at offset `p`. */
  function Take(data: Bytes, p: nat, n: nat): (b: Bytes)
    requires n <= Remaining(data, p)
    ensures |b| == n
    ensures forall k :: 0 <= k < n ==> b[k] == data[p + k]
  {
    if n == 0 then [] else data[p..p + n]
  }

  // ---------------------------------------------------------------- words and ints

  /** The big-endian word at offset `p`: its first byte is the most significant. */
  function WordAt(data: Bytes, p: nat): (w: Word)
    requires p + 4 <= |data|
    ensures (data[p] as int) * 0x100_0000 <= w < (data[p] as int + 1) * 0x100_0000
  {
    (data[p] as int) * 0x100_0000 + (data[p + 1] as int) * 0x1_0000 + (data[p + 2] as int) * 0x100 + data[p + 3]
  }

  /** A word read as a signed 32-bit two's-complement integer (numpy's '>i4'). */
  function Int32(w: Word): (x: int)
    ensures -0x8000_0000 <= x < 0x8000_0000
    ensures x >= 0 <==> w < 0x8000_0000
  {
    if w < 0x8000_0000 then w else w - 0x1_0000_0000
  }

  predicate IsInt32(x: int) { -0x8000_0000 <= x < 0x8000_0000 }

  /** The word that holds `x` in two's complement. */
  function Int32Word(x: int): (w: Word)
    requires IsInt32(x)
    ensures Int32(w) == x
  {
    if x < 0 then x + 0x1_0000_0000 else x
  }

  /** The `n` consecutive words at offset `p`. */
  function WordsFrom(data: Bytes, p: nat, n: nat): (ws: seq<Word>)
    requires 4 * n <= Remaining(data, p)
    ensures |ws| == n
    ensures forall k :: 0 <= k < n ==> ws[k] == WordAt(data, p + 4 * k)
    decreases n
  {
    if n == 0 then [] else [WordAt(data, p)] + WordsFrom(data, p + 4, n - 1)
  }

  /** Each word read as a signed 32-bit integer. */
  function Int32s(ws: seq<Word>): (xs: seq<int>)
    ensures |xs| == |ws|
    ensures forall k :: 0 <= k < |ws| ==> xs[k] == Int32(ws[k])
  {
    if ws == [] then [] else [Int32(ws[0])] + Int32s(ws[1..])
  }

  /** `n` ints at offset `p`, as get_int(file, N=n) reads them in one bulk read. */
  function IntsAt(data: Bytes, p: nat, n: int): (r: Result<seq<int>>)
    ensures r.Ok? <==> 0 <= n && 4 * n <= Remaining(data, p)
    ensures n < 0 ==> r == Err(NegativeCount(n))
    ensures 0 <= n && r.Err? ==> r == Err(Truncated)
    ensures r.Ok? ==> |r.value| == n && forall k :: 0 <= k < n ==> r.value[k] == Int32(WordAt(data, p + 4 * k))
  {
    if n < 0 then Err(NegativeCount(n))
    else if Remaining(data, p) < 4 * n then Err(Truncated)
    else Ok(Int32s(WordsFrom(data, p, n)))
  }

  /** `n` floats at offset `p`, each kept as its raw word, as get_float(file, N=n) reads them. */
  function WordsAt(data: Bytes, p: nat, n: int): (r: Result<seq<Word>>)
    ensures r.Ok? <==> 0 <= n && 4 * n <= Remaining(data, p)
    ensures n < 0 ==> r == Err(NegativeCount(n))
    ensures 0 <= n && r.Err? ==> r == Err(Truncated)
    ensures r.Ok? ==> |r.value| == n && forall k :: 0 <= k < n ==> r.value[k] == WordAt(data, p + 4 * k)
  {
    if n < 0 then Err(NegativeCount(n))
    else if Remaining(data, p) < 4 * n then Err(Truncated)
    else Ok(WordsFrom(data, p, n))
  }

  /** A single int at offset `p` (get_int with N=1). */
  function IntAt(data: Bytes, p: nat): (r: Result<int>)
    ensures r.Ok? <==> p + 4 <= |data|
    ensures r.Ok? ==> r.value == Int32(WordAt(data, p))
    ensures r.Err? ==> r.error == Truncated
  {
    if Remaining(data, p) < 4 then Err(Truncated) else Ok(Int32(WordAt(data, p)))
  }

  /** A single float word at offset `p` (get_float with N=1). */
  function WordAt1(data: Bytes, p: nat): (r: Result<Word>)
    ensures r.Ok? <==> p + 4 <= |data|
    ensures r.Ok? ==> r.value == WordAt(data, p)
    ensures r.Err? ==> r.error == Truncated
  {
    if Remaining(data, p) < 4 then Err(Truncated) else Ok(WordAt(data, p))
  }

  /** get_int and get_float with N=1 return the one element of a one-word bulk read. */
  lemma SingleIsBulk(data: Bytes, p: nat)
    ensures IntAt(data, p).Ok? <==> IntsAt(data, p, 1).Ok?
    ensures IntAt(data, p).Ok? ==> IntsAt(data, p, 1).value == [IntAt(data, p).value]
    ensures WordAt1(data, p).Ok? <==> WordsAt(data, p, 1).Ok?
    ensures WordAt1(data, p).Ok? ==> WordsAt(data, p, 1).value == [WordAt1(data, p).value]
  {
  }

  // ---------------------------------------------------------------- strings

  /** `l` rounded up to a multiple of 4, computed as get_str does: add `4 - l % 4` when `l % 4` is not 0. */
  function PaddedLen(l: nat): (r: nat)
    ensures r % 4 == 0 && l <= r < l + 4
  {
    if l % 4 == 0 then l else l + 4 - l % 4
  }

  /** get_str's padding equals the rounding xdrlib's fixed-length unpacking uses, (l + 3) / 4 * 4. */
  lemma PaddedLenIsXdrRounding(l: nat)
    ensures PaddedLen(l) == (l + 3) / 4 * 4
    ensures forall m: nat :: m % 4 == 0 && l <= m ==> PaddedLen(l) <= m
  {
  }

  /**
   * A string at offset `p`: two length prefixes, then the first prefix's count of bytes padded
   * to a 4-byte boundary. The second prefix is only compared with the first, and a mismatch
   * only prints a warning. The string is kept as its bytes.
   */
  function StrAt(data: Bytes, p: nat): (r: Result<(Bytes, nat)>)
    ensures r.Ok? <==>
      p + 8 <= |data| && 0 <= Int32(WordAt(data, p)) &&
      p + 8 + PaddedLen(Int32(WordAt(data, p))) <= |data|
    ensures r.Ok? ==>
      |r.value.0| == Int32(WordAt(data, p)) &&
      r.value.1 == p + 8 + PaddedLen(|r.value.0|)
  {
    if Remaining(data, p) < 8 then Err(Truncated)
    else
    var l1 := Int32(WordAt(data, p));
    if l1 < 0 then Err(NegativeLength(l1))
    else if Remaining(data, p + 8) < PaddedLen(l1) then Err(Truncated)
    else Ok((data[p + 8 .. p + 8 + l1], p + 8 + PaddedLen(l1)))
  }

  /** A decoded string is the first `l1` bytes of the payload after the two prefixes. */
  lemma StrAtPayload(data: Bytes, p: nat)
    requires StrAt(data, p).Ok?
    ensures StrAt(data, p).value.0 == data[p + 8 .. p + 8 + |StrAt(data, p).value.0|]
  {
  }

  /** The second length prefix never changes what is decoded: a mismatch is only a warning. */
  lemma StrAtIgnoresSecondPrefix(data: Bytes, p: nat, other: Bytes)
    requires p + 8 <= |data| && |other| == 4
    ensures StrAt(data[..p + 4] + other + data[p + 8..], p) == StrAt(data, p)
  {
    var d := data[..p + 4] + other + data[p + 8..];
    assert |d| == |data|;
    assert d[p..p + 4] == data[p..p + 4];
    assert d[p + 8..] == data[p + 8..];
    assert forall k :: p + 8 <= k < |d| ==> d[k] == data[k];
    if StrAt(data, p).Ok? {
      var l := Int32(WordAt(data, p));
      assert d[p + 8 .. p + 8 + l] == data[p + 8 .. p + 8 + l];
    }
  }

  /** `n` strings read one after another, as `[get_str(file) for i in range(n)]`. */
  function StrsAt(data: Bytes, p: nat, n: nat): (r: Result<(seq<Bytes>, nat)>)
    ensures r.Ok? ==> |r.value.0| == n && p <= r.value.1
    decreases n
  {
    if n == 0 then Ok(([], p))
    else
      var first :- StrAt(data, p);
      assert p < first.1;
      PrependAt([first.0], StrsAt(data, first.1, n - 1))
  }

  /** Reading `n` strings at `p` has consumed `out` and resumes with the `m` strings at `q`. */
  predicate StrsResume(data: Bytes, p: nat, n: nat, out: seq<Bytes>, q: nat, m: nat) {
    StrsAt(data, p, n) == PrependAt(out, StrsAt(data, q, m))
  }

  /** Before any string is read, reading resumes where it starts, with nothing consumed. */
  lemma StrsResumeStart(data: Bytes, p: nat, n: nat)
    ensures StrsResume(data, p, n, [], p, n)
  {
    PrependAtNil(StrsAt(data, p, n));
  }

  /** Once no string is left to read, the whole read is what was consumed, ending at `q`. */
  lemma StrsResumeEnd(data: Bytes, p: nat, n: nat, out: seq<Bytes>, q: nat)
    requires StrsResume(data, p, n, out, q, 0)
    ensures StrsAt(data, p, n) == Ok((out, q))
  {
    assert out + [] == out;
  }

  /**
   * One step of reading strings into an accumulator: the read fails as the next string at
   * `q` fails, or it resumes with `out` and that string, after it, with one string fewer.
   */
  lemma StrsAtAdvance(data: Bytes, p: nat, n: nat, out: seq<Bytes>, q: nat, m: nat)
    requires m > 0 && StrsResume(data, p, n, out, q, m)
    ensures StrAt(data, q).Err? ==> StrsAt(data, p, n) == Err(StrAt(data, q).error)
    ensures StrAt(data, q).Ok? ==>
      StrsResume(data, p, n, out + [StrAt(data, q).value.0], StrAt(data, q).value.1, m - 1)
  {
    var first := StrAt(data, q);
    if first.Ok? {
      PrependAtAssoc(out, [first.value.0], StrsAt(data, first.value.1, m - 1));
    }
  }

  // ---------------------------------------------------------------- typed records

  /** One field of a record decoded from a format string. */
  datatype Value = IntV(i: int) | FloatV(w: Word) | StrV(s: Bytes) {
    /** The value has the kind format letter `flag` reads; 'd' reads a 4-byte float, as 'f' does. */
    predicate Fits(flag: char) {
      match this
      case IntV(_) => flag == 'i'
      case FloatV(_) => flag == 'f' || flag == 'd'
      case StrV(_) => flag == 's'
    }
  }

  /** A format letter that reads one word: 'i' for an int, 'f' or 'd' for a float. */
  predicate IsWordFlag(flag: char) { flag == 'i' || flag == 'f' || flag == 'd' }

  /** A format letter get_list knows. */
  predicate IsFlag(flag: char) { IsWordFlag(flag) || flag == 's' }

  /** The field that format letter `flag` reads at offset `p`. */
  function ItemAt(data: Bytes, p: nat, flag: char): (r: Result<(Value, nat)>)
    ensures r.Ok? ==> r.value.0.Fits(flag) && p + 4 <= r.value.1
    ensures r.Err? && r.error.UnexpectedFlag? ==> r.error.flag == flag
    ensures r.Err? ==> (r.error.UnexpectedFlag? <==> !IsFlag(flag))
  {
    if flag == 'i' then
      var x :- IntAt(data, p);
      Ok((IntV(x), p + 4))
    else if flag == 'f' || flag == 'd' then
      var w :- WordAt1(data, p);
      Ok((FloatV(w), p + 4))
    else if flag == 's' then
      var s :- StrAt(data, p);
      Ok((StrV(s.0), s.1))
    else
      Err(UnexpectedFlag(flag))
  }

  /** The record get_list reads for format string `fmt`: one field per letter, in order. */
  function ListAt(data: Bytes, p: nat, fmt: string): (r: Result<(seq<Value>, nat)>)
    ensures r.Ok? ==> |r.value.0| == |fmt| && p <= r.value.1
    ensures r.Ok? ==> forall k :: 0 <= k < |fmt| ==> r.value.0[k].Fits(fmt[k])
    decreases |fmt|
  {
    if fmt == [] then Ok(([], p))
    else
      var item :- ItemAt(data, p, fmt[0]);
      var rest := ListAt(data, item.1, fmt[1..]);
      PrependAt([item.0], rest)
  }

  /** One step of ListAt: the first field, then the rest of the format. */
  lemma ListAtStep(data: Bytes, p: nat, fmt: string)
    requires fmt != []
    ensures ItemAt(data, p, fmt[0]).Err? ==> ListAt(data, p, fmt) == Err(ItemAt(data, p, fmt[0]).error)
    ensures ItemAt(data, p, fmt[0]).Ok? ==>
      ListAt(data, p, fmt) ==
      PrependAt([ItemAt(data, p, fmt[0]).value.0], ListAt(data, ItemAt(data, p, fmt[0]).value.1, fmt[1..]))
  {
  }

  /**
   * get_list reads a format made of two parts as the first part, then the second part from
   * where the first ended.
   */
  lemma {:induction false} ListAtAppend(data: Bytes, p: nat, f1: string, f2: string)
    ensures ListAt(data, p, f1 + f2) ==
      if ListAt(data, p, f1).Ok? then
        PrependAt(ListAt(data, p, f1).value.0, ListAt(data, ListAt(data, p, f1).value.1, f2))
      else Err(ListAt(data, p, f1).error)
    decreases |f1|
  {
    if f1 == [] {
      assert f1 + f2 == f2;
      PrependAtNil(ListAt(data, p, f2));
    } else {
      assert (f1 + f2)[0] == f1[0] && (f1 + f2)[1..] == f1[1..] + f2;
      ListAtStep(data, p, f1 + f2);
      ListAtStep(data, p, f1);
      var item := ItemAt(data, p, f1[0]);
      if item.Ok? {
        ListAtAppend(data, item.value.1, f1[1..], f2);
        var rest := ListAt(data, item.value.1, f1[1..]);
        if rest.Ok? {
          PrependAtAssoc([item.value.0], rest.value.0, ListAt(data, rest.value.1, f2));
        }
      }
    }
  }

  /** The field a one-word format letter ('i', 'f' or 'd') reads from word `w`. */
  function WordValue(flag: char, w: Word): Value {
    if flag == 'i' then IntV(Int32(w)) else FloatV(w)
  }

  /**
   * get_list raises "Unexpected flag" only for a letter of the format it does not know, and
   * only once every field before that letter has been read.
   */
  lemma {:induction false} ListAtUnexpectedFlag(data: Bytes, p: nat, fmt: string)
    requires ListAt(data, p, fmt).Err? && ListAt(data, p, fmt).error.UnexpectedFlag?
    ensures exists k :: (0 <= k < |fmt| && fmt[k] == ListAt(data, p, fmt).error.flag && !IsFlag(fmt[k]) &&
      ListAt(data, p, fmt[..k]).Ok?)
    decreases |fmt|
  {
    var e := ListAt(data, p, fmt).error;
    ListAtStep(data, p, fmt);
    var item := ItemAt(data, p, fmt[0]);
    if item.Err? {
      assert fmt[..0] == [];
      assert fmt[0] == e.flag && !IsFlag(fmt[0]) && ListAt(data, p, fmt[..0]).Ok?;
    } else {
      var tail := fmt[1..];
      ListAtUnexpectedFlag(data, item.value.1, tail);
      var k :| 0 <= k < |tail| && tail[k] == e.flag && !IsFlag(tail[k]) && ListAt(data, item.value.1, tail[..k]).Ok?;
      assert fmt[..k + 1][0] == fmt[0] && fmt[..k + 1][1..] == tail[..k];
      ListAtStep(data, p, fmt[..k + 1]);
      assert fmt[k + 1] == e.flag && !IsFlag(fmt[k + 1]) && ListAt(data, p, fmt[..k + 1]).Ok?;
    }
  }

  /** A one-word field is read exactly when its word is there. */
  lemma ItemAtWord(data: Bytes, p: nat, flag: char)
    requires IsWordFlag(flag)
    ensures ItemAt(data, p, flag) ==
      if p + 4 <= |data| then Ok((WordValue(flag, WordAt(data, p)), p + 4)) else Err(Truncated)
  {
  }

  /** A string field is read as StrAt reads it. */
  lemma ItemAtStr(data: Bytes, p: nat)
    ensures ItemAt(data, p, 's') ==
      if StrAt(data, p).Ok? then Ok((StrV(StrAt(data, p).value.0), StrAt(data, p).value.1))
      else Err(StrAt(data, p).error)
  {
  }

  /**
   * A record of ints and floats is one run of words: it is read exactly when all its words
   * are there, consumes four bytes per field, and field `k` is the word at `p + 4 * k`.
   */
  lemma {:induction false} ListAtWordsOnly(data: Bytes, p: nat, fmt: string)
    requires forall k :: 0 <= k < |fmt| ==> IsWordFlag(fmt[k])
    ensures ListAt(data, p, fmt).Ok? <==> fmt == [] || p + 4 * |fmt| <= |data|
    ensures ListAt(data, p, fmt).Err? ==> ListAt(data, p, fmt).error == Truncated
    ensures ListAt(data, p, fmt).Ok? ==> ListAt(data, p, fmt).value.1 == p + 4 * |fmt|
    ensures ListAt(data, p, fmt).Ok? ==>
      forall k :: 0 <= k < |fmt| ==> ListAt(data, p, fmt).value.0[k] == WordValue(fmt[k], WordAt(data, p + 4 * k))
    decreases |fmt|
  {
    if fmt != [] {
      var tail := fmt[1..];
      assert forall k :: 0 <= k < |tail| ==> tail[k] == fmt[k + 1];
      ListAtWordsOnly(data, p + 4, tail);
      ListAtWordStep(data, p, fmt);
      if p + 4 <= |data| && ListAt(data, p + 4, tail).Ok? {
        WordsPrepend(data, p, fmt, ListAt(data, p + 4, tail).value.0);
      }
    }
  }

  /** A record that starts with a word field reads that word, then the rest four bytes on. */
  lemma ListAtWordStep(data: Bytes, p: nat, fmt: string)
    requires fmt != [] && IsWordFlag(fmt[0])
    ensures p + 4 > |data| ==> ListAt(data, p, fmt) == Err(Truncated)
    ensures p + 4 <= |data| ==>
      ListAt(data, p, fmt) == PrependAt([WordValue(fmt[0], WordAt(data, p))], ListAt(data, p + 4, fmt[1..]))
  {
    ListAtStep(data, p, fmt);
    ItemAtWord(data, p, fmt[0]);
  }

  /** The word at `p` followed by the words from `p + 4` on are the words from `p` on. */
  lemma WordsPrepend(data: Bytes, p: nat, fmt: string, vs: seq<Value>)
    requires fmt != [] && p + 4 <= |data| && |vs| == |fmt| - 1
    requires forall k :: 0 <= k < |fmt| - 1 ==> p + 4 + 4 * k + 4 <= |data|
    requires forall k :: 0 <= k < |fmt| - 1 ==> vs[k] == WordValue(fmt[1..][k], WordAt(data, p + 4 + 4 * k))
    ensures forall k :: 0 <= k < |fmt| ==> p + 4 * k + 4 <= |data|
    ensures forall k :: 0 <= k < |fmt| ==>
      ([WordValue(fmt[0], WordAt(data, p))] + vs)[k] == WordValue(fmt[k], WordAt(data, p + 4 * k))
  {
    forall k | 0 < k < |fmt|
      ensures p + 4 * k + 4 <= |data|
      ensures ([WordValue(fmt[0], WordAt(data, p))] + vs)[k] == WordValue(fmt[k], WordAt(data, p + 4 * k))
    {
      assert p + 4 + 4 * (k - 1) == p + 4 * k;
      assert fmt[1..][k - 1] == fmt[k];
    }
  }

  /** The dictionary `dict(zip(keys, vals))`: pairs up to the shorter list, a later key overriding an earlier one. */
  function DictOf(keys: seq<string>, vals: seq<Value>): (m: map<string, Value>)
    ensures m.Keys == set k | 0 <= k < Min(|keys|, |vals|) :: keys[k]
    decreases |keys|
  {
    var n := Min(|keys|, |vals|);
    if n == 0 then map[]
    else
      var m := DictOf(keys[..n - 1], vals[..n - 1]);
      assert forall k :: 0 <= k < n - 1 ==> keys[..n - 1][k] == keys[k];
      m[keys[n - 1] := vals[n - 1]]
  }

  /** With distinct keys, every key maps to the value at its own position. */
  lemma {:induction false} DictOfLookup(keys: seq<string>, vals: seq<Value>, k: nat)
    requires k < Min(|keys|, |vals|)
    requires forall a, b :: 0 <= a < b < |keys| ==> keys[a] != keys[b]
    ensures keys[k] in DictOf(keys, vals) && DictOf(keys, vals)[keys[k]] == vals[k]
    decreases |keys|
  {
    var n := Min(|keys|, |vals|);
    if k < n - 1 {
      DictOfLookup(keys[..n - 1], vals[..n - 1], k);
    }
  }

  /** With distinct keys and one value per key, every key maps to the value at its own position. */
  lemma DictOfFields(keys: seq<string>, vals: seq<Value>)
    requires |keys| == |vals|
    requires forall a, b :: 0 <= a < b < |keys| ==> keys[a] != keys[b]
    ensures forall k :: 0 <= k < |keys| ==> keys[k] in DictOf(keys, vals) && DictOf(keys, vals)[keys[k]] == vals[k]
  {
    forall k | 0 <= k < |keys|
      ensures keys[k] in DictOf(keys, vals) && DictOf(keys, vals)[keys[k]] == vals[k]
    {
      DictOfLookup(keys, vals, k);
    }
  }

  /** A three-field record's dictionary, written out. */
  lemma DictOf3(keys: seq<string>, vals: seq<Value>)
    requires |keys| == 3 && |vals| == 3
    ensures DictOf(keys, vals) == map[keys[0] := vals[0], keys[1] := vals[1], keys[2] := vals[2]]
  {
    assert keys[..2][..1] == keys[..1] && vals[..2][..1] == vals[..1];
    assert DictOf(keys[..1], vals[..1]) == map[keys[0] := vals[0]] by {
      assert keys[..1][..0] == [] && vals[..1][..0] == [];
    }
    assert DictOf(keys[..2], vals[..2]) == map[keys[0] := vals[0], keys[1] := vals[1]];
  }

  /** A four-field record's dictionary, written out. */
  lemma DictOf4(keys: seq<string>, vals: seq<Value>)
    requires |keys| == 4 && |vals| == 4
    ensures DictOf(keys, vals) == map[keys[0] := vals[0], keys[1] := vals[1], keys[2] := vals[2], keys[3] := vals[3]]
  {
    DictOf3(keys[..3], vals[..3]);
  }

  // ---------------------------------------------------------------- encoders

  /** The four big-endian bytes of a word. */
  function EncodeWord(w: Word): (b: Bytes)
    ensures |b| == 4
  {
    var w1 := w / 0x100;
    var w2 := w1 / 0x100;
    [w2 / 0x100, w2 % 0x100, w1 % 0x100, w % 0x100]
  }

  function EncodeInt(x: int): (b: Bytes)
    requires IsInt32(x)
    ensures |b| == 4
  {
    EncodeWord(Int32Word(x))
  }

  function Zeros(n: nat): (b: Bytes)
    ensures |b| == n
  {
    seq(n, _ => 0)
  }

  /** A string as the writer lays it out: two equal length prefixes, the bytes, zero padding. */
  function EncodeStr(s: Bytes): (b: Bytes)
    requires |s| < 0x8000_0000
    ensures |b| == 8 + PaddedLen(|s|)
  {
    EncodeInt(|s|) + EncodeInt(|s|) + s + Zeros(PaddedLen(|s|) - |s|)
  }

  predicate ShortStrs(ss: seq<Bytes>) { forall k :: 0 <= k < |ss| ==> |ss[k]| < 0x8000_0000 }

  function EncodeStrs(ss: seq<Bytes>): (b: Bytes)
    requires ShortStrs(ss)
  {
    if ss == [] then [] else EncodeStr(ss[0]) + EncodeStrs(ss[1..])
  }

  function EncodeInts(xs: seq<int>): (b: Bytes)
    requires forall k :: 0 <= k < |xs| ==> IsInt32(xs[k])
    ensures |b| == 4 * |xs|
  {
    if xs == [] then [] else EncodeInt(xs[0]) + EncodeInts(xs[1..])
  }

  /** `data` holds `e` at offset `p`. */
  predicate HoldsAt(data: Bytes, p: nat, e: Bytes)
    decreases |e|
  {
    if e == [] then p <= |data|
    else p < |data| && data[p] == e[0] && HoldsAt(data, p + 1, e[1..])
  }

  /** The bytes at `p + k` are those of `e`. */
  lemma {:induction false} HoldsAtBytes(data: Bytes, p: nat, e: Bytes)
    requires HoldsAt(data, p, e)
    ensures p + |e| <= |data|
    ensures forall k :: 0 <= k < |e| ==> data[p + k] == e[k]
    decreases |e|
  {
    if e != [] {
      HoldsAtBytes(data, p + 1, e[1..]);
      forall k | 0 <= k < |e| ensures data[p + k] == e[k] {
        if k > 0 {
          assert e[1..][k - 1] == e[k];
        }
      }
    }
  }

  /** A stretch of `data` equal to `e` holds `e`. */
  lemma {:induction false} HoldsAtSlice(data: Bytes, p: nat, e: Bytes)
    requires p + |e| <= |data| && data[p .. p + |e|] == e
    ensures HoldsAt(data, p, e)
    decreases |e|
  {
    if e != [] {
      assert data[p] == data[p .. p + |e|][0];
      assert data[p + 1 .. p + 1 + |e[1..]|] == data[p .. p + |e|][1..];
      HoldsAtSlice(data, p + 1, e[1..]);
    }
  }

  /** The two halves of a concatenation sit one after the other. */
  lemma {:induction false} HoldsAtSplit(data: Bytes, p: nat, a: Bytes, b: Bytes)
    requires HoldsAt(data, p, a + b)
    ensures HoldsAt(data, p, a) && HoldsAt(data, p + |a|, b)
    decreases |a|
  {
    if a == [] {
      assert a + b == b;
    } else {
      assert (a + b)[0] == a[0] && (a + b)[1..] == a[1..] + b;
      HoldsAtSplit(data, p + 1, a[1..], b);
    }
  }

  /** Decoding a word gives back the word that was encoded. */
  lemma WordRoundTrip(data: Bytes, p: nat, w: Word)
    requires HoldsAt(data, p, EncodeWord(w))
    ensures p + 4 <= |data| && WordAt(data, p) == w
  {
    var w1 := w / 0x100;
    var w2 := w1 / 0x100;
    var e := EncodeWord(w);
    HoldsAtBytes(data, p, e);
    assert e[0] == w2 / 0x100 && e[1] == w2 % 0x100 && e[2] == w1 % 0x100 && e[3] == w % 0x100;
    assert data[p + 0] == e[0] && data[p + 1] == e[1] && data[p + 2] == e[2] && data[p + 3] == e[3];
    assert w == w1 * 0x100 + w % 0x100;
    assert w1 == w2 * 0x100 + w1 % 0x100;
    assert w2 == (w2 / 0x100) * 0x100 + w2 % 0x100;
  }

  lemma IntRoundTrip(data: Bytes, p: nat, x: int)
    requires IsInt32(x) && HoldsAt(data, p, EncodeInt(x))
    ensures IntAt(data, p) == Ok(x)
  {
    WordRoundTrip(data, p, Int32Word(x));
  }

  lemma IntsAtCons(data: Bytes, p: nat, n: nat, x: int, tail: seq<int>)
    requires IntAt(data, p) == Ok(x) && IntsAt(data, p + 4, n) == Ok(tail)
    ensures IntsAt(data, p, n + 1) == Ok([x] + tail)
  {
    var r := IntsAt(data, p, n + 1);
    assert r.Ok?;
    forall k | 0 <= k < n + 1
      ensures r.value[k] == ([x] + tail)[k]
    {
      if k == 0 {
        assert r.value[0] == Int32(WordAt(data, p)) == x;
      } else {
        assert r.value[k] == Int32(WordAt(data, p + 4 * k));
        assert tail[k - 1] == Int32(WordAt(data, p + 4 + 4 * (k - 1)));
      }
    }
    assert r.value == [x] + tail;
  }

  lemma {:induction false} IntsRoundTrip(data: Bytes, p: nat, xs: seq<int>)
    requires forall k :: 0 <= k < |xs| ==> IsInt32(xs[k])
    requires HoldsAt(data, p, EncodeInts(xs))
    ensures IntsAt(data, p, |xs|) == Ok(xs)
    decreases |xs|
  {
    if xs != [] {
      HoldsAtSplit(data, p, EncodeInt(xs[0]), EncodeInts(xs[1..]));
      IntRoundTrip(data, p, xs[0]);
      IntsRoundTrip(data, p + 4, xs[1..]);
      IntsAtCons(data, p, |xs| - 1, xs[0], xs[1..]);
      assert [xs[0]] + xs[1..] == xs;
    } else {
      assert IntsAt(data, p, 0).value == [];
    }
  }

  /** An encoded word followed by more bytes: the word reads back, and the rest starts 4 bytes on. */
  lemma WordThen(data: Bytes, p: nat, w: Word, rest: Bytes)
    requires HoldsAt(data, p, EncodeWord(w) + rest)
    ensures p + 4 <= |data| && WordAt(data, p) == w && HoldsAt(data, p + 4, rest)
  {
    HoldsAtSplit(data, p, EncodeWord(w), rest);
    WordRoundTrip(data, p, w);
  }

  /** An encoded int followed by more bytes: the int reads back, and the rest starts 4 bytes on. */
  lemma IntThen(data: Bytes, p: nat, x: int, rest: Bytes)
    requires IsInt32(x) && HoldsAt(data, p, EncodeInt(x) + rest)
    ensures IntAt(data, p) == Ok(x) && HoldsAt(data, p + 4, rest)
  {
    HoldsAtSplit(data, p, EncodeInt(x), rest);
    IntRoundTrip(data, p, x);
  }

  /** Encoded ints followed by more bytes: one bulk read gives them back, and the rest follows. */
  lemma IntsThen(data: Bytes, p: nat, xs: seq<int>, rest: Bytes)
    requires (forall k :: 0 <= k < |xs| ==> IsInt32(xs[k])) && HoldsAt(data, p, EncodeInts(xs) + rest)
    ensures IntsAt(data, p, |xs|) == Ok(xs) && HoldsAt(data, p + 4 * |xs|, rest)
  {
    HoldsAtSplit(data, p, EncodeInts(xs), rest);
    IntsRoundTrip(data, p, xs);
  }

  /** An encoded string followed by more bytes: the string reads back, and the rest follows it. */
  lemma StrThen(data: Bytes, p: nat, s: Bytes, rest: Bytes)
    requires |s| < 0x8000_0000 && HoldsAt(data, p, EncodeStr(s) + rest)
    ensures StrAt(data, p) == Ok((s, p + |EncodeStr(s)|)) && HoldsAt(data, p + |EncodeStr(s)|, rest)
  {
    HoldsAtSplit(data, p, EncodeStr(s), rest);
    StrRoundTrip(data, p, s);
  }

  /** Encoded strings followed by more bytes: they read back one by one, and the rest follows. */
  lemma StrsThen(data: Bytes, p: nat, ss: seq<Bytes>, rest: Bytes)
    requires ShortStrs(ss) && HoldsAt(data, p, EncodeStrs(ss) + rest)
    ensures StrsAt(data, p, |ss|) == Ok((ss, p + |EncodeStrs(ss)|)) && HoldsAt(data, p + |EncodeStrs(ss)|, rest)
  {
    HoldsAtSplit(data, p, EncodeStrs(ss), rest);
    StrsRoundTrip(data, p, ss);
  }

  /** Decoding an encoded string gives back the string and consumes exactly its encoding. */
  lemma StrRoundTrip(data: Bytes, p: nat, s: Bytes)
    requires |s| < 0x8000_0000 && HoldsAt(data, p, EncodeStr(s))
    ensures StrAt(data, p) == Ok((s, p + |EncodeStr(s)|))
  {
    var e := EncodeStr(s);
    HoldsAtBytes(data, p, e);
    var prefix := EncodeInt(|s|);
    var pad := Zeros(PaddedLen(|s|) - |s|);
    assert e == prefix + prefix + s + pad;
    HoldsAtSplit(data, p, prefix + prefix + s, pad);
    HoldsAtSplit(data, p, prefix + prefix, s);
    HoldsAtSplit(data, p, prefix, prefix);
    WordRoundTrip(data, p, Int32Word(|s|));
    var r := StrAt(data, p);
    assert r.Ok? && |r.value.0| == |s|;
    StrAtPayload(data, p);
    forall i | 0 <= i < |s| ensures r.value.0[i] == s[i] {
      assert e[8 + i] == s[i];
      assert data[p + (8 + i)] == e[8 + i];
    }
    assert r.value.0 == s;
  }

  /** A successful read, known by its value and its end offset. */
  lemma ReadIs<T>(r: Result<(T, nat)>, v: T, e: nat)
    requires r.Ok? && r.value.0 == v && r.value.1 == e
    ensures r == Ok((v, e))
  {
  }

  /** A string followed by the rest of a run decodes as the whole run. */
  lemma StrsAtCons(data: Bytes, p: nat, ss: seq<Bytes>, q: nat, e: nat)
    requires ss != []
    requires StrAt(data, p) == Ok((ss[0], q)) && StrsAt(data, q, |ss[1..]|) == Ok((ss[1..], e))
    ensures StrsAt(data, p, |ss|) == Ok((ss, e))
  {
    assert [ss[0]] + ss[1..] == ss;
  }

  /** A non-empty run of strings short enough to encode is its first string's encoding, then the rest's. */
  lemma EncodeStrsCons(ss: seq<Bytes>)
    requires ss != [] && ShortStrs(ss)
    ensures ShortStrs(ss[1..])
    ensures EncodeStrs(ss) == EncodeStr(ss[0]) + EncodeStrs(ss[1..])
  {
    var tail := ss[1..];
    forall k | 0 <= k < |tail| ensures |tail[k]| < 0x8000_0000 {
      assert tail[k] == ss[k + 1];
    }
  }

  /** The encoding of a non-empty run of strings is the first string's, then the rest's. */
  lemma StrsSplit(data: Bytes, p: nat, ss: seq<Bytes>)
    requires ss != [] && ShortStrs(ss) && HoldsAt(data, p, EncodeStrs(ss))
    ensures ShortStrs(ss[1..])
    ensures StrAt(data, p) == Ok((ss[0], p + |EncodeStr(ss[0])|))
    ensures HoldsAt(data, p + |EncodeStr(ss[0])|, EncodeStrs(ss[1..]))
    ensures |EncodeStrs(ss)| == |EncodeStr(ss[0])| + |EncodeStrs(ss[1..])|
  {
    EncodeStrsCons(ss);
    HoldsAtSplit(data, p, EncodeStr(ss[0]), EncodeStrs(ss[1..]));
    StrRoundTrip(data, p, ss[0]);
  }

  /** Decoding encoded strings gives them back, one by one, and consumes exactly their encoding. */
  lemma {:induction false} StrsRoundTrip(data: Bytes, p: nat, ss: seq<Bytes>)
    requires ShortStrs(ss) && HoldsAt(data, p, EncodeStrs(ss))
    ensures StrsAt(data, p, |ss|) == Ok((ss, p + |EncodeStrs(ss)|))
    decreases |ss|
  {
    if ss != [] {
      StrsSplit(data, p, ss);
      var tail := ss[1..];
      var q := p + |EncodeStr(ss[0])|;
      StrsRoundTrip(data, q, tail);
      var e := q + |EncodeStrs(tail)|;
      assert e == p + |EncodeStrs(ss)|;
      StrsAtCons(data, p, ss, q, e);
    }
  }
}
