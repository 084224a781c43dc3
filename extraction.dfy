/**
 * read_pext_ll: the rows of a particle extraction dump, read after its header. The number of
 * declared quantities picks the column names; every column is a big-endian float word, and
 * the rest of the stream is read as whole rows.
 */
module Extraction {
  import opened Wire
  import opened Streams
  import opened Headers

  /** The columns every extraction row starts with. */
  const BaseColumns: seq<string> := ["t", "q", "x", "y", "z", "ux", "uy", "uz"]

  /** The decoded rows with the names of their columns. */
  datatype Table = Table(columns: seq<string>, rows: seq<seq<Word>>)

  /**
   * `len(header['quantities'])`: the quantities of an extraction header are its names, those
   * of a fields or scalars header its (name, unit) pairs; a movie header has no such entry.
   */
  function QuantityCount(h: Header): (r: Result<nat>)
    ensures r.Err? <==> h.body.MovieBody?
    ensures r.Err? ==> r.error == MissingKey("quantities")
    ensures h.body.ExtractionBody? ==> r == Ok(|h.body.names|)
    ensures h.body.FieldsBody? ==> r == Ok(|h.body.quantities|)
  {
    match h.body
    case FieldsBody(_, _, _, quantities) => Ok(|quantities|)
    case MovieBody(_, _, _, _, _) => Err(MissingKey("quantities"))
    case ExtractionBody(_, names) => Ok(|names|)
  }

  /**
   * The column names for `n` declared quantities: the base columns, then E for 9, xi, yi, zi
   * for 11, and E, xi, yi, zi for 12. Any other count keeps the base columns alone.
   */
  function Columns(n: nat): (cols: seq<string>)
    ensures 8 <= |cols|
  {
    if n == 9 then BaseColumns + ["E"]
    else if n == 11 then BaseColumns + ["xi", "yi", "zi"]
    else if n == 12 then BaseColumns + ["E", "xi", "yi", "zi"]
    else BaseColumns
  }

  /**
   * The columns always start with the base columns; they number as many as the quantities
   * when the count is 8, 9, 11 or 12, and 8 for any other count.
   */
  lemma ColumnsShape(n: nat)
    ensures |Columns(n)| >= 8 && Columns(n)[..8] == BaseColumns
    ensures n in {8, 9, 11, 12} ==> |Columns(n)| == n
    ensures n !in {9, 11, 12} ==> Columns(n) == BaseColumns
    ensures n == 9 || n == 12 ==> Columns(n)[8] == "E"
    ensures n == 11 ==> Columns(n)[8..] == ["xi", "yi", "zi"]
    ensures n == 12 ==> Columns(n)[9..] == ["xi", "yi", "zi"]
  {
  }

  /** No column name repeats, so each names one field of a row. */
  lemma ColumnsDistinct(n: nat)
    ensures forall a, b :: 0 <= a < b < |Columns(n)| ==> Columns(n)[a] != Columns(n)[b]
  {
  }

  /** `n` rows of `width` words each, from offset `q` of a buffer. */
  function RowsFrom(buf: Bytes, q: nat, n: nat, width: nat): (rows: seq<seq<Word>>)
    requires Advance(q, n, 4 * width) <= |buf|
    ensures |rows| == n
    ensures forall k :: 0 <= k < n ==> |rows[k]| == width
  {
    seq(n, k requires 0 <= k < n => AdvanceBelow(q, k, n, 4 * width); WordsFrom(buf, Advance(q, k, 4 * width), width))
  }

  /** The whole rows of `rowBytes` bytes in `len` bytes. */
  function WholeRows(len: nat, rowBytes: nat): (n: nat)
    requires 0 < rowBytes
    ensures n == 0 <==> len < rowBytes
    decreases len
  {
    if len < rowBytes then 0 else 1 + WholeRows(len - rowBytes, rowBytes)
  }

  /** The bytes left over after the whole rows of `rowBytes` bytes in `len` bytes. */
  function Leftover(len: nat, rowBytes: nat): (l: nat)
    requires 0 < rowBytes
    ensures l < rowBytes && l <= len
    decreases len
  {
    if len < rowBytes then len else Leftover(len - rowBytes, rowBytes)
  }

  /** `len` bytes are their whole rows followed by fewer bytes than a row. */
  lemma {:induction false} RowsSplit(len: nat, rowBytes: nat)
    requires 0 < rowBytes
    ensures Mul(WholeRows(len, rowBytes), rowBytes) + Leftover(len, rowBytes) == len
    ensures Leftover(len, rowBytes) < rowBytes
    decreases len
  {
    if len >= rowBytes {
      RowsSplit(len - rowBytes, rowBytes);
    }
  }

  /** The whole rows and the leftover are the quotient and the remainder of the division. */
  lemma RowsAreDivMod(len: nat, rowBytes: nat)
    requires 0 < rowBytes
    ensures WholeRows(len, rowBytes) == len / rowBytes
    ensures Leftover(len, rowBytes) == len % rowBytes
  {
    var n := WholeRows(len, rowBytes);
    RowsSplit(len, rowBytes);
    MulIsProduct(n, rowBytes);
    DivModUnique(len, rowBytes, n, Leftover(len, rowBytes));
  }

  /** A nonzero multiple of a positive number is at least that number in size. */
  lemma MulSign(x: int, d: nat)
    requires 0 < d
    ensures x >= 1 ==> x * d >= d
    ensures x <= -1 ==> x * d + d <= 0
  {
  }

  /** A quotient and a remainder below the divisor are the ones of the division. */
  lemma DivModUnique(len: nat, d: nat, q: nat, r: nat)
    requires 0 < d && r < d && q * d + r == len
    ensures q == len / d && r == len % d
  {
    var q' := len / d;
    var r' := len % d;
    assert (q - q') * d == r' - r;
    MulSign(q - q', d);
  }

  /**
   * `np.fromstring(file.read(), dtype=dt, count=-1)` at offset `p`: the rest of the stream as
   * whole rows of `width` words; a rest that is not a whole number of rows is rejected.
   */
  function RowsAt(data: Bytes, p: nat, width: nat): (r: Result<seq<seq<Word>>>)
    requires 0 < width
    ensures r.Err? ==> r.error.Misaligned? && 0 < r.error.remainder < 4 * width
    ensures r.Ok? ==> forall k :: 0 <= k < |r.value| ==> |r.value[k]| == width
  {
    var rest := Take(data, p, Remaining(data, p));
    var rowBytes := 4 * width;
    RowsSplit(|rest|, rowBytes);
    AdvanceIsMul(0, WholeRows(|rest|, rowBytes), rowBytes);
    if Leftover(|rest|, rowBytes) != 0 then Err(Misaligned(Leftover(|rest|, rowBytes)))
    else Ok(RowsFrom(rest, 0, WholeRows(|rest|, rowBytes), width))
  }

  /** read_pext_ll(file, header) with the file at offset `p`. */
  function PextAt(data: Bytes, p: nat, h: Header): (r: Result<Table>)
    ensures r.Ok? ==> QuantityCount(h).Ok? && r.value.columns == Columns(QuantityCount(h).value)
    ensures r.Ok? ==> forall k :: 0 <= k < |r.value.rows| ==> |r.value.rows[k]| == |r.value.columns|
  {
    var n :- QuantityCount(h);
    var cols := Columns(n);
    var rows :- RowsAt(data, p, |cols|);
    Ok(Table(cols, rows))
  }

  /** Word `j` of row `k` of a run of rows is the word `k` rows and `j` words after the run. */
  lemma RowsFromCell(buf: Bytes, q: nat, n: nat, width: nat, k: nat, j: nat)
    requires Advance(q, n, 4 * width) <= |buf|
    requires k < n && j < width
    ensures Advance(q, k, 4 * width) + 4 * j + 4 <= |buf|
    ensures RowsFrom(buf, q, n, width)[k][j] == WordAt(buf, Advance(q, k, 4 * width) + 4 * j)
  {
    AdvanceBelow(q, k, n, 4 * width);
  }

  /** A word of the bytes read at `p` is the word `p` bytes further on in the stream. */
  lemma WordAtTake(data: Bytes, p: nat, len: nat, o: nat)
    requires len <= Remaining(data, p) && o + 4 <= len
    ensures p + o + 4 <= |data|
    ensures WordAt(Take(data, p, len), o) == WordAt(data, p + o)
  {
    var buf := Take(data, p, len);
    assert buf[o] == data[p + o] && buf[o + 1] == data[p + o + 1];
    assert buf[o + 2] == data[p + o + 2] && buf[o + 3] == data[p + o + 3];
  }

  /**
   * Given a header that declares quantities, read_pext_ll succeeds exactly when the rest of
   * the stream is a whole number of rows, and then returns the columns the quantity count
   * picks and as many rows as the rest holds; otherwise it reports the leftover bytes.
   */
  lemma PextOutcome(data: Bytes, p: nat, h: Header)
    requires QuantityCount(h).Ok?
    ensures
      var cols := Columns(QuantityCount(h).value);
      var rowBytes := 4 * |cols|;
      (PextAt(data, p, h).Ok? <==> Remaining(data, p) % rowBytes == 0) &&
      (PextAt(data, p, h).Err? ==> PextAt(data, p, h) == Err(Misaligned(Remaining(data, p) % rowBytes))) &&
      (PextAt(data, p, h).Ok? ==>
        PextAt(data, p, h).value.columns == cols &&
        |PextAt(data, p, h).value.rows| == Remaining(data, p) / rowBytes)
  {
    var cols := Columns(QuantityCount(h).value);
    RowsAreDivMod(Remaining(data, p), 4 * |cols|);
  }

  /** Word `j` of row `k` of `rows` is the word `k` rows of `width` words and `j` words after `p`. */
  predicate RowCell(data: Bytes, p: nat, width: nat, rows: seq<seq<Word>>, k: nat, j: nat)
    requires k < |rows| && j < |rows[k]|
  {
    Advance(p, k, 4 * width) + 4 * j + 4 <= |data| &&
    rows[k][j] == WordAt(data, Advance(p, k, 4 * width) + 4 * j)
  }

  /** Word `j` of row `k` is the word `k` rows and `j` words after offset `p`. */
  lemma RowsAtCell(data: Bytes, p: nat, width: nat, k: nat, j: nat)
    requires 0 < width && RowsAt(data, p, width).Ok?
    requires k < |RowsAt(data, p, width).value| && j < width
    ensures RowCell(data, p, width, RowsAt(data, p, width).value, k, j)
  {
    var len := Remaining(data, p);
    var rest := Take(data, p, len);
    var n := WholeRows(len, 4 * width);
    RowsSplit(len, 4 * width);
    AdvanceIsMul(0, n, 4 * width);
    assert RowsAt(data, p, width).value == RowsFrom(rest, 0, n, width);
    RowsFromCell(rest, 0, n, width, k, j);
    WordAtTake(data, p, len, Advance(0, k, 4 * width) + 4 * j);
    AdvanceIsMul(0, k, 4 * width);
    AdvanceIsMul(p, k, 4 * width);
    assert p + Advance(0, k, 4 * width) + 4 * j == Advance(p, k, 4 * width) + 4 * j;
  }

  /**
   * Column `j` of row `k` is the float word `k` rows (of four bytes per column) and `j` words
   * after the offset the rows start at.
   */
  lemma PextCell(data: Bytes, p: nat, h: Header, k: nat, j: nat)
    requires PextAt(data, p, h).Ok?
    requires k < |PextAt(data, p, h).value.rows| && j < |PextAt(data, p, h).value.columns|
    ensures RowCell(data, p, |PextAt(data, p, h).value.columns|, PextAt(data, p, h).value.rows, k, j)
  {
    var cols := Columns(QuantityCount(h).value);
    var rows := RowsAt(data, p, |cols|);
    assert PextAt(data, p, h) == Ok(Table(cols, rows.value));
    assert PextAt(data, p, h).value.rows == rows.value && |PextAt(data, p, h).value.columns| == |cols|;
    RowsAtCell(data, p, |cols|, k, j);
  }

  /** A movie header is rejected before anything is read: it declares no quantities. */
  lemma PextRejectsMovie(data: Bytes, p: nat, h: Header)
    requires h.body.MovieBody?
    ensures PextAt(data, p, h) == Err(MissingKey("quantities"))
  {
  }

  /** read_pext_ll(file, header): the columns, then the rest of the file as rows. */
  method ReadPextLl(s: Stream, header: Header) returns (r: Result<Table>)
    modifies s
    ensures r == PextAt(s.data, old(s.pos), header)
  {
    var n :- QuantityCount(header);
    var cols := Columns(n);
    var rest := s.ReadAll();
    var rowBytes := 4 * |cols|;
    RowsAreDivMod(|rest|, rowBytes);
    if |rest| % rowBytes != 0 {
      return Err(Misaligned(|rest| % rowBytes));
    }
    RowsSplit(|rest|, rowBytes);
    AdvanceIsMul(0, |rest| / rowBytes, rowBytes);
    var rows := RowsFrom(rest, 0, |rest| / rowBytes, |cols|);
    r := Ok(Table(cols, rows));
  }
}
