/**
 * The reader's file object and the low-level readers built on it (get_int, get_float,
 * get_str, get_list, get_dict, iseof). A stream is a byte sequence with a position that
 * reads and seeks move, as a file opened in binary mode: a read past the end returns fewer
 * bytes than asked for, and a seek may go past the end.
 *
 * Each reader is proved to return what the matching decoder of module Wire returns at the
 * position the stream had on entry, and to leave the stream just after what it decoded.
 */
module Streams {
  import opened Wire

  class Stream {
    const data: Bytes
    var pos: nat

    constructor (data: Bytes)
      ensures this.data == data && pos == 0
    {
      this.data := data;
      pos := 0;
    }

    /** file.tell() */
    method Tell() returns (p: nat)
      ensures p == pos
    {
      p := pos;
    }

    /** file.seek(p) */
    method Seek(p: nat)
      modifies this
      ensures pos == p
    {
      pos := p;
    }

    /** file.seek(n, 1), a relative seek forward that may pass the end. */
    method Skip(n: nat)
      modifies this
      ensures pos == old(pos) + n
    {
      pos := pos + n;
    }

    /** file.read(n): at most `n` bytes, fewer at the end of the stream. */
    method Read(n: nat) returns (b: Bytes)
      modifies this
      ensures b == Take(data, old(pos), Min(n, Remaining(data, old(pos))))
      ensures pos == old(pos) + |b|
    {
      var m := Min(n, Remaining(data, pos));
      b := Take(data, pos, m);
      pos := pos + m;
    }

    /** file.read(): everything up to the end. */
    method ReadAll() returns (b: Bytes)
      modifies this
      ensures b == Take(data, old(pos), Remaining(data, old(pos)))
      ensures pos == old(pos) + |b|
    {
      b := Read(Remaining(data, pos));
    }

    /** iseof: probe with a one-byte read, and put the position back when a byte was there. */
    method IsEof() returns (eof: bool)
      modifies this
      ensures eof <==> old(pos) >= |data|
      ensures pos == old(pos)
    {
      var c := pos;
      var _ := Read(1);
      if pos == c {
        return true;
      }
      Seek(c);
      return false;
    }

    /** get_int(file, N=n): one bulk read of `4 * n` bytes, rejected when short. */
    method GetInts(n: int) returns (r: Result<seq<int>>)
      modifies this
      ensures r == IntsAt(data, old(pos), n)
      ensures r.Ok? ==> pos == old(pos) + 4 * n
    {
      if n < 0 {
        return Err(NegativeCount(n));
      }
      ghost var p := pos;
      var b := Read(4 * n);
      if |b| < 4 * n {
        return Err(Truncated);
      }
      assert forall k :: 0 <= k < n ==> WordAt(b, 4 * k) == WordAt(data, p + 4 * k) by {
        forall k | 0 <= k < n ensures WordAt(b, 4 * k) == WordAt(data, p + 4 * k) {
          assert b[4 * k] == data[p + 4 * k] && b[4 * k + 1] == data[p + 4 * k + 1];
          assert b[4 * k + 2] == data[p + 4 * k + 2] && b[4 * k + 3] == data[p + 4 * k + 3];
        }
      }
      var ws := WordsFrom(b, 0, n);
      assert ws == WordsFrom(data, p, n);
      r := Ok(Int32s(ws));
    }

    /** get_int(file): a single int. */
    method GetInt() returns (r: Result<int>)
      modifies this
      ensures r == IntAt(data, old(pos))
      ensures r.Ok? ==> pos == old(pos) + 4
    {
      SingleIsBulk(data, pos);
      var xs :- GetInts(1);
      r := Ok(xs[0]);
    }

    /** get_float(file, N=n): `n` float words in one bulk read, rejected when short. */
    method GetFloats(n: int) returns (r: Result<seq<Word>>)
      modifies this
      ensures r == WordsAt(data, old(pos), n)
      ensures r.Ok? ==> pos == old(pos) + 4 * n
    {
      if n < 0 {
        return Err(NegativeCount(n));
      }
      ghost var p := pos;
      var b := Read(4 * n);
      if |b| < 4 * n {
        return Err(Truncated);
      }
      assert forall k :: 0 <= k < n ==> WordAt(b, 4 * k) == WordAt(data, p + 4 * k) by {
        forall k | 0 <= k < n ensures WordAt(b, 4 * k) == WordAt(data, p + 4 * k) {
          assert b[4 * k] == data[p + 4 * k] && b[4 * k + 1] == data[p + 4 * k + 1];
          assert b[4 * k + 2] == data[p + 4 * k + 2] && b[4 * k + 3] == data[p + 4 * k + 3];
        }
      }
      var ws := WordsFrom(b, 0, n);
      assert ws == WordsFrom(data, p, n);
      r := Ok(ws);
    }

    /** get_float(file): a single float word. */
    method GetFloat() returns (r: Result<Word>)
      modifies this
      ensures r == WordAt1(data, old(pos))
      ensures r.Ok? ==> pos == old(pos) + 4
    {
      SingleIsBulk(data, pos);
      var ws :- GetFloats(1);
      r := Ok(ws[0]);
    }

    /**
     * get_str: two length prefixes, then a padded payload. A mismatch of the prefixes only
     * prints a warning, so the second prefix is read and otherwise ignored.
     */
    method GetStr() returns (r: Result<Bytes>)
      modifies this
      ensures r == Values(StrAt(data, old(pos)))
      ensures r.Ok? ==> pos == StrAt(data, old(pos)).value.1
    {
      ghost var p := pos;
      var l1 :- GetInt();
      var l2 :- GetInt();
      if l1 < 0 {
        return Err(NegativeLength(l1));
      }
      var size := PaddedLen(l1);
      var buf := Read(size);
      if |buf| < size {
        return Err(Truncated);
      }
      assert buf[..l1] == data[p + 8 .. p + 8 + l1];
      r := Ok(buf[..l1]);
    }

    /** `[get_str(file) for i in range(n)]` */
    method GetStrs(n: nat) returns (r: Result<seq<Bytes>>)
      modifies this
      ensures r == Values(StrsAt(data, old(pos), n))
      ensures r.Ok? ==> pos == StrsAt(data, old(pos), n).value.1
    {
      ghost var p := pos;
      var out: seq<Bytes> := [];
      var i := 0;
      StrsResumeStart(data, p, n);
      while i < n
        invariant 0 <= i <= n
        invariant StrsResume(data, p, n, out, pos, n - i)
      {
        StrsAtAdvance(data, p, n, out, pos, n - i);
        var s := GetStr();
        if s.Err? {
          return Err(s.error);
        }
        out := out + [s.value];
        i := i + 1;
      }
      StrsResumeEnd(data, p, n, out, pos);
      r := Ok(out);
    }

    /** One field of get_list: an int for 'i', a float word for 'f' or 'd', a string for 's'. */
    method GetItem(flag: char) returns (r: Result<Value>)
      modifies this
      ensures r == Values(ItemAt(data, old(pos), flag))
      ensures r.Ok? ==> pos == ItemAt(data, old(pos), flag).value.1
    {
      if flag == 'i' {
        var x :- GetInt();
        r := Ok(IntV(x));
      } else if flag == 'f' || flag == 'd' {
        var w :- GetFloat();
        r := Ok(FloatV(w));
      } else if flag == 's' {
        var s :- GetStr();
        r := Ok(StrV(s));
      } else {
        r := Err(UnexpectedFlag(flag));
      }
    }

    /** get_list(file, fmt): one field per format letter, in order; an unknown letter raises. */
    method GetList(fmt: string) returns (r: Result<seq<Value>>)
      modifies this
      ensures r == Values(ListAt(data, old(pos), fmt))
      ensures r.Ok? ==> pos == ListAt(data, old(pos), fmt).value.1
    {
      ghost var p := pos;
      var out: seq<Value> := [];
      var i := 0;
      PrependAtNil(ListAt(data, p, fmt));
      while i < |fmt|
        invariant 0 <= i <= |fmt|
        invariant ListAt(data, p, fmt) == PrependAt(out, ListAt(data, pos, fmt[i..]))
      {
        ghost var q := pos;
        assert fmt[i..][0] == fmt[i] && fmt[i..][1..] == fmt[i + 1..];
        ListAtStep(data, q, fmt[i..]);
        var item := GetItem(fmt[i]);
        if item.Err? {
          return Err(item.error);
        }
        PrependAtAssoc(out, [item.value], ListAt(data, pos, fmt[i + 1..]));
        out := out + [item.value];
        i := i + 1;
      }
      assert fmt[i..] == [];
      assert out + [] == out;
      r := Ok(out);
    }

    /** get_dict(file, fmt, keys): `dict(zip(keys, get_list(file, fmt)))` */
    method GetDict(fmt: string, keys: seq<string>) returns (r: Result<map<string, Value>>)
      modifies this
      ensures ListAt(data, old(pos), fmt).Ok? <==> r.Ok?
      ensures r.Ok? ==> r.value == DictOf(keys, ListAt(data, old(pos), fmt).value.0)
      ensures r.Ok? ==> pos == ListAt(data, old(pos), fmt).value.1
      ensures r.Err? ==> r.error == ListAt(data, old(pos), fmt).error
    {
      var vals :- GetList(fmt);
      r := Ok(DictOf(keys, vals));
    }
  }
}
