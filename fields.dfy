/**
 * read_flds, from the point where the dump is open: the header, then one record per domain.
 * A domain record is three ints, the three grid vectors (each a count followed by that many
 * float words), then every declared quantity in header order, each `nI * nJ * nK * size`
 * float words long, where `size` is 3 for a fields dump (vector quantities) and 1 for a
 * scalars dump. A quantity that was not requested is skipped with a relative seek; a
 * requested one is split into its `size` components, each reshaped to (nK, nJ, nI).
 */
module Fields {
  import opened Wire
  import opened Streams
  import opened Headers

  /** A value kept in a domain: a grid vector, or one component of a quantity as a (nK, nJ, nI) array. */
  datatype Entry = Grid(points: seq<Word>) | Array(cells: seq<seq<seq<Word>>>)

  /** One domain: its grid vectors and its requested components, by key. */
  type Domain = map<Bytes, Entry>

  /** The grid dimensions and coordinates at the head of a domain record. */
  datatype Mesh = Mesh(nI: nat, nJ: nat, nK: nat, xs: seq<Word>, ys: seq<Word>, zs: seq<Word>)

  /** Keys of the grid vectors: "xgv", "ygv", "zgv". */
  const XGV: Bytes := [0x78, 0x67, 0x76]
  const YGV: Bytes := [0x79, 0x67, 0x76]
  const ZGV: Bytes := [0x7A, 0x67, 0x76]

  /** The suffixes of the three components of a vector quantity: "x", "y", "z". */
  const ComponentSuffixes: seq<Bytes> := [[0x78], [0x79], [0x7A]]

  /** The number of cells of a domain, `nAll = nI * nJ * nK`. */
  function Cells(m: Mesh): nat {
    Mul(Mul(m.nI, m.nJ), m.nK)
  }

  /** The number of float words of one quantity of a domain, `nAll * size`. */
  function QuantityWords(m: Mesh, size: nat): nat {
    Mul(Cells(m), size)
  }

  lemma CellsIsProduct(m: Mesh, size: nat)
    ensures Cells(m) == m.nI * m.nJ * m.nK
    ensures QuantityWords(m, size) == Cells(m) * size
  {
    MulIsProduct(m.nI, m.nJ);
    MulIsProduct(m.nI * m.nJ, m.nK);
    MulIsProduct(Cells(m), size);
  }

  // ---------------------------------------------------------------- arithmetic of the reshape

  /** Cell (k, j, i) of a (nK, nJ, nI) array lies at flat index `(k * nJ + j) * nI + i`, inside the array. */
  lemma CellBound(m: Mesh, k: nat, j: nat, i: nat)
    requires k < m.nK && j < m.nJ && i < m.nI
    ensures (k * m.nJ + j) * m.nI + i < Cells(m)
  {
    var row := k * m.nJ + j;
    MulLe(k + 1, m.nK, m.nJ);
    assert (k + 1) * m.nJ == k * m.nJ + m.nJ;
    assert row + 1 <= m.nK * m.nJ;
    MulLe(row + 1, m.nK * m.nJ, m.nI);
    assert (row + 1) * m.nI == row * m.nI + m.nI;
    assert row * m.nI + i < m.nK * m.nJ * m.nI;
    CellsIsProduct(m, 1);
    ProductOrder(m.nK, m.nJ, m.nI);
  }

  /** A product of three factors does not depend on their order. */
  lemma ProductOrder(a: nat, b: nat, c: nat)
    ensures a * b * c == c * b * a
  {
  }

  /** Element `e` of a run of `n` records of `size` words, component `c`, lies inside the run. */
  lemma ElementBound(n: nat, size: nat, e: nat, c: nat)
    requires e < n && c < size
    ensures e * size + c < n * size
  {
    MulLe(e + 1, n, size);
  }

  /** The skip length `nAll * 4 * size` is the byte length of one quantity's words. */
  lemma StrideIsQuantityBytes(m: Mesh, size: nat)
    ensures Cells(m) * 4 * size == 4 * QuantityWords(m, size)
  {
    CellsIsProduct(m, size);
  }

  // ---------------------------------------------------------------- the reshape

  /**
   * Component `c` of `n` interleaved records of `size` words, the row `c` of
   * `raw.reshape(n, size).T`.
   */
  function Channel(raw: seq<Word>, n: nat, size: nat, c: nat): (chan: seq<Word>)
    requires |raw| == Mul(n, size) && c < size
    ensures |chan| == n
  {
    seq(n, e requires 0 <= e < n => ElementBound(n, size, e, c); MulIsProduct(n, size); raw[e * size + c])
  }

  /** Row (k, j) of the reshaped array: `nI` consecutive cells. */
  function Row(chan: seq<Word>, m: Mesh, k: nat, j: nat): (row: seq<Word>)
    requires |chan| == Cells(m) && k < m.nK && j < m.nJ
    ensures |row| == m.nI
  {
    seq(m.nI, i requires 0 <= i < m.nI => CellBound(m, k, j, i); chan[(k * m.nJ + j) * m.nI + i])
  }

  /** Plane `k` of the reshaped array: `nJ` rows. */
  function Plane(chan: seq<Word>, m: Mesh, k: nat): (plane: seq<seq<Word>>)
    requires |chan| == Cells(m) && k < m.nK
    ensures |plane| == m.nJ
  {
    seq(m.nJ, j requires 0 <= j < m.nJ => Row(chan, m, k, j))
  }

  /** `chan.reshape(nK, nJ, nI)`: the (nK, nJ, nI) array read from `chan` in row-major order. */
  function Reshape(chan: seq<Word>, m: Mesh): (a: seq<seq<seq<Word>>>)
    requires |chan| == Cells(m)
    ensures |a| == m.nK
  {
    seq(m.nK, k requires 0 <= k < m.nK => Plane(chan, m, k))
  }

  /** The position of component `c` of cell (k, j, i) among the raw words of a quantity. */
  function RawIndex(m: Mesh, size: nat, c: nat, k: nat, j: nat, i: nat): nat {
    ((k * m.nJ + j) * m.nI + i) * size + c
  }

  /**
   * Component `c` of a quantity is an (nK, nJ, nI) array whose cell [k][j][i] is the raw
   * word `((k * nJ + j) * nI + i) * size + c` of the quantity.
   */
  lemma ComponentIndex(raw: seq<Word>, m: Mesh, size: nat, c: nat, k: nat, j: nat, i: nat)
    requires |raw| == QuantityWords(m, size) && c < size
    requires k < m.nK && j < m.nJ && i < m.nI
    ensures RawIndex(m, size, c, k, j, i) < |raw|
    ensures |Reshape(Channel(raw, Cells(m), size, c), m)[k]| == m.nJ
    ensures |Reshape(Channel(raw, Cells(m), size, c), m)[k][j]| == m.nI
    ensures Reshape(Channel(raw, Cells(m), size, c), m)[k][j][i] == raw[RawIndex(m, size, c, k, j, i)]
  {
    ReshapeAt(Channel(raw, Cells(m), size, c), m, k, j, i);
    ChannelAt(raw, Cells(m), size, c, (k * m.nJ + j) * m.nI + i);
  }

  /** Element `e` of component `c` is raw word `e * size + c`. */
  lemma ChannelAt(raw: seq<Word>, n: nat, size: nat, c: nat, e: nat)
    requires |raw| == Mul(n, size) && c < size && e < n
    ensures e * size + c < |raw|
    ensures Channel(raw, n, size, c)[e] == raw[e * size + c]
  {
    ElementBound(n, size, e, c);
    MulIsProduct(n, size);
  }

  /** Cell [k][j][i] of the reshaped array is element `(k * nJ + j) * nI + i` of the channel. */
  lemma ReshapeAt(chan: seq<Word>, m: Mesh, k: nat, j: nat, i: nat)
    requires |chan| == Cells(m) && k < m.nK && j < m.nJ && i < m.nI
    ensures (k * m.nJ + j) * m.nI + i < |chan|
    ensures |Reshape(chan, m)[k]| == m.nJ && |Reshape(chan, m)[k][j]| == m.nI
    ensures Reshape(chan, m)[k][j][i] == chan[(k * m.nJ + j) * m.nI + i]
  {
    CellBound(m, k, j, i);
    assert Reshape(chan, m)[k] == Plane(chan, m, k);
    assert Plane(chan, m, k)[j] == Row(chan, m, k, j);
  }

  /** The keys a requested quantity `name` is stored under: its name, or its name suffixed with x, y and z. */
  function ComponentKeys(name: Bytes, size: nat): (keys: seq<Bytes>)
    requires size == 1 || size == 3
    ensures |keys| == size
  {
    if size == 1 then [name]
    else [name + ComponentSuffixes[0], name + ComponentSuffixes[1], name + ComponentSuffixes[2]]
  }

  /** Components `c` and up of a quantity, each stored under its own key. */
  function StoreFrom(d: Domain, keys: seq<Bytes>, raw: seq<Word>, size: nat, m: Mesh, c: nat): Domain
    requires |keys| == size && c <= size
    requires |raw| == QuantityWords(m, size)
    decreases size - c
  {
    if c == size then d
    else StoreFrom(d[keys[c] := Array(Reshape(Channel(raw, Cells(m), size, c), m))], keys, raw, size, m, c + 1)
  }

  /**
   * The domain after a requested quantity `name` is decoded from `raw`: component `c` is
   * stored under the `c`-th of its keys.
   */
  function Store(d: Domain, name: Bytes, raw: seq<Word>, size: nat, m: Mesh): (r: Domain)
    requires size == 1 || size == 3
    requires |raw| == QuantityWords(m, size)
    ensures forall key :: key in r <==> key in d || key in ComponentKeys(name, size)
  {
    ComponentKeysDistinct(name, size);
    StoreFromEntries(d, ComponentKeys(name, size), raw, size, m, 0);
    assert ComponentKeys(name, size)[0..] == ComponentKeys(name, size);
    StoreFrom(d, ComponentKeys(name, size), raw, size, m, 0)
  }

  /** The keys of the three components of a vector quantity are distinct. */
  lemma ComponentKeysDistinct(name: Bytes, size: nat)
    requires size == 1 || size == 3
    ensures forall a, b :: 0 <= a < b < size ==> ComponentKeys(name, size)[a] != ComponentKeys(name, size)[b]
  {
    if size == 3 {
      var keys := ComponentKeys(name, 3);
      assert keys[0][|name|] == 0x78 && keys[1][|name|] == 0x79 && keys[2][|name|] == 0x7A;
    }
  }

  /**
   * Storing components `c` and up under distinct keys adds exactly those keys, each holding
   * its component, and leaves every other key as it was.
   */
  lemma {:induction false} StoreFromEntries(d: Domain, keys: seq<Bytes>, raw: seq<Word>, size: nat, m: Mesh, c: nat)
    requires |keys| == size && c <= size
    requires |raw| == QuantityWords(m, size)
    requires forall a, b :: 0 <= a < b < size ==> keys[a] != keys[b]
    ensures forall key :: key in StoreFrom(d, keys, raw, size, m, c) <==> key in d || key in keys[c..]
    ensures forall b :: c <= b < size ==>
      StoreFrom(d, keys, raw, size, m, c)[keys[b]] == Array(Reshape(Channel(raw, Cells(m), size, b), m))
    ensures forall key :: key in d && key !in keys[c..] ==> StoreFrom(d, keys, raw, size, m, c)[key] == d[key]
    decreases size - c
  {
    if c < size {
      var d' := d[keys[c] := Array(Reshape(Channel(raw, Cells(m), size, c), m))];
      StoreFromEntries(d', keys, raw, size, m, c + 1);
      KeysFromStep(keys, c);
    }
  }

  /** The keys from `c` on are key `c` and the keys after it, and distinct keys do not repeat key `c`. */
  lemma KeysFromStep(keys: seq<Bytes>, c: nat)
    requires c < |keys|
    requires forall a, b :: 0 <= a < b < |keys| ==> keys[a] != keys[b]
    ensures forall key :: key in keys[c..] <==> key == keys[c] || key in keys[c + 1..]
    ensures forall b :: c < b < |keys| ==> keys[b] in keys[c + 1..]
    ensures keys[c] !in keys[c + 1..]
  {
    assert keys[c..] == [keys[c]] + keys[c + 1..];
    forall b | c < b < |keys| ensures keys[b] in keys[c + 1..] {
      assert keys[c + 1..][b - c - 1] == keys[b];
    }
    var rest := keys[c + 1..];
    forall b | 0 <= b < |rest| ensures rest[b] != keys[c] {
      assert rest[b] == keys[c + 1 + b];
    }
  }

  /**
   * A scalar is stored under its name and a vector under its name suffixed with x, y and z,
   * each key holding its component reshaped to (nK, nJ, nI); every other key keeps its entry.
   */
  lemma StoreEntries(d: Domain, name: Bytes, raw: seq<Word>, size: nat, m: Mesh)
    requires size == 1 || size == 3
    requires |raw| == QuantityWords(m, size)
    ensures forall key :: key in Store(d, name, raw, size, m) <==> key in d || key in ComponentKeys(name, size)
    ensures forall c :: 0 <= c < size ==>
      Store(d, name, raw, size, m)[ComponentKeys(name, size)[c]] == Array(Reshape(Channel(raw, Cells(m), size, c), m))
    ensures forall key :: key in d && key !in ComponentKeys(name, size) ==> Store(d, name, raw, size, m)[key] == d[key]
  {
    var keys := ComponentKeys(name, size);
    ComponentKeysDistinct(name, size);
    StoreFromEntries(d, keys, raw, size, m, 0);
    assert keys[0..] == keys;
  }

  // ---------------------------------------------------------------- the request

  /** Components per quantity: 3 for a fields dump (type 2), 1 for a scalars dump (type 3). */
  function ComponentCount(dumpType: int): (r: Result<nat>)
    ensures r.Ok? <==> dumpType == 2 || dumpType == 3
    ensures r.Ok? ==> r.value == 1 || r.value == 3
    ensures r.Err? ==> r.error == NotFieldsFile(dumpType)
  {
    if dumpType == 2 then Ok(3)
    else if dumpType == 3 then Ok(1)
    else Err(NotFieldsFile(dumpType))
  }

  /** The names of the declared quantities, in header order. */
  function Names(quantities: seq<(Bytes, Bytes)>): (qs: seq<Bytes>)
    ensures |qs| == |quantities|
    ensures forall k :: 0 <= k < |qs| ==> qs[k] == quantities[k].0
  {
    seq(|quantities|, k requires 0 <= k < |quantities| => quantities[k].0)
  }

  /**
   * The requested names from position `i` on are checked in order against the declared
   * names; the first one that is not declared is reported with the declared names.
   */
  function CheckFrom(requested: seq<Bytes>, qs: seq<Bytes>, i: nat): (r: Result<set<Bytes>>)
    requires i <= |requested|
    ensures r.Ok? ==> r.value == set q | q in requested
    ensures r.Err? ==> r.error.QuantityNotAvailable?
    decreases |requested| - i
  {
    if i == |requested| then Ok(set q | q in requested)
    else if requested[i] !in qs then Err(QuantityNotAvailable(requested[i], qs))
    else CheckFrom(requested, qs, i + 1)
  }

  /** The set of names to decode: all declared names for an empty request, else the checked request. */
  function Wanted(requested: seq<Bytes>, qs: seq<Bytes>): (r: Result<set<Bytes>>)
    ensures requested == [] ==> r == Ok(set q | q in qs)
    ensures r.Err? ==> r.error.QuantityNotAvailable?
  {
    if requested == [] then Ok(set q | q in qs) else CheckFrom(requested, qs, 0)
  }

  /** A request is accepted exactly when every requested name is declared. */
  lemma {:induction false} CheckFromAccepts(requested: seq<Bytes>, qs: seq<Bytes>, i: nat)
    requires i <= |requested|
    ensures CheckFrom(requested, qs, i).Ok? <==> forall k :: i <= k < |requested| ==> requested[k] in qs
    decreases |requested| - i
  {
    if i < |requested| {
      CheckFromAccepts(requested, qs, i + 1);
    }
  }

  /** A rejected request names its first undeclared name, every name before it being declared. */
  lemma {:induction false} CheckFromRejectsFirstMissing(requested: seq<Bytes>, qs: seq<Bytes>, i: nat)
    requires i <= |requested| && CheckFrom(requested, qs, i).Err?
    ensures exists k :: (i <= k < |requested| && requested[k] !in qs &&
      CheckFrom(requested, qs, i).error == QuantityNotAvailable(requested[k], qs) &&
      forall j :: i <= j < k ==> requested[j] in qs)
    decreases |requested| - i
  {
    if requested[i] !in qs {
      assert CheckFrom(requested, qs, i).error == QuantityNotAvailable(requested[i], qs);
    } else {
      CheckFromRejectsFirstMissing(requested, qs, i + 1);
      var k :| i + 1 <= k < |requested| && requested[k] !in qs &&
        CheckFrom(requested, qs, i + 1).error == QuantityNotAvailable(requested[k], qs) &&
        forall j :: i + 1 <= j < k ==> requested[j] in qs;
      assert forall j :: i <= j < k ==> requested[j] in qs;
    }
  }

  /** Requesting every declared name, in any order, decodes the same set as an empty request. */
  lemma RequestAllIsEmptyRequest(requested: seq<Bytes>, qs: seq<Bytes>)
    requires requested != [] && forall q :: q in qs <==> q in requested
    ensures Wanted(requested, qs) == Wanted([], qs)
  {
    CheckFromAccepts(requested, qs, 0);
    assert (set q | q in requested) == (set q | q in qs);
  }

  // ---------------------------------------------------------------- domain records

  /** The errors a domain record can raise: a short read, or a negative grid count. */
  predicate ReadError(e: DecodeError) {
    e == Truncated || e.NegativeCount?
  }

  /** A grid vector: a count `n`, then `n` float words. */
  function GridAt(data: Bytes, p: nat): (r: Result<(seq<Word>, nat)>)
    ensures r.Ok? ==> p + 4 <= |data| && |r.value.0| == Int32(WordAt(data, p))
    ensures r.Ok? ==> r.value.1 == p + 4 + 4 * |r.value.0| && r.value.1 <= |data|
    ensures r.Ok? ==> forall k :: 0 <= k < |r.value.0| ==> r.value.0[k] == WordAt(data, p + 4 + 4 * k)
    ensures r.Err? ==> ReadError(r.error)
  {
    var n :- IntAt(data, p);
    var ws :- WordsAt(data, p + 4, n);
    Ok((ws, p + 4 + 4 * n))
  }

  /** The head of a domain record: three ints that are read and dropped, then the x, y and z grid vectors. */
  function MeshAt(data: Bytes, p: nat): (r: Result<(Mesh, nat)>)
    ensures r.Ok? ==>
      var m := r.value.0;
      |m.xs| == m.nI && |m.ys| == m.nJ && |m.zs| == m.nK &&
      r.value.1 == p + 24 + 4 * (m.nI + m.nJ + m.nK)
    ensures r.Err? ==> ReadError(r.error)
  {
    var _ :- IntsAt(data, p, 3);
    var gi :- GridAt(data, p + 12);
    var gj :- GridAt(data, gi.1);
    var gk :- GridAt(data, gj.1);
    Ok((Mesh(|gi.0|, |gj.0|, |gk.0|, gi.0, gj.0, gk.0), gk.1))
  }

  /**
   * The declared quantities `qs` of one domain from the `i`-th on, in order, into domain `d`, each `count`
   * float words long: a quantity that is not wanted is skipped by a relative seek, which
   * never fails, even past the end; a wanted one is read and stored. Skipped or decoded,
   * each quantity moves the position by the same `4 * count` bytes.
   */
  function QuantityFieldsAt(data: Bytes, p: nat, qs: seq<Bytes>, i: nat, wanted: set<Bytes>, size: nat, m: Mesh, count: nat, d: Domain)
    : (r: Result<(Domain, nat)>)
    requires i <= |qs|
    requires size == 1 || size == 3
    requires count == QuantityWords(m, size)
    ensures r.Ok? ==> r.value.1 == Advance(p, |qs| - i, 4 * count)
    ensures r.Err? ==> r.error == Truncated
    decreases |qs| - i
  {
    if i == |qs| then Ok((d, p))
    else if qs[i] !in wanted then
      QuantityFieldsAt(data, p + 4 * count, qs, i + 1, wanted, size, m, count, d)
    else
      var raw :- WordsAt(data, p, count);
      QuantityFieldsAt(data, p + 4 * count, qs, i + 1, wanted, size, m, count, Store(d, qs[i], raw, size, m))
  }

  /** One quantity of QuantityFieldsAt: skipped, failed, or stored before the rest. */
  lemma QuantityFieldsStep(data: Bytes, p: nat, qs: seq<Bytes>, i: nat, wanted: set<Bytes>, size: nat, m: Mesh, count: nat, d: Domain)
    requires i < |qs|
    requires size == 1 || size == 3
    requires count == QuantityWords(m, size)
    ensures qs[i] !in wanted ==>
      QuantityFieldsAt(data, p, qs, i, wanted, size, m, count, d) ==
      QuantityFieldsAt(data, p + 4 * count, qs, i + 1, wanted, size, m, count, d)
    ensures qs[i] in wanted && WordsAt(data, p, count).Err? ==>
      QuantityFieldsAt(data, p, qs, i, wanted, size, m, count, d) == Err(WordsAt(data, p, count).error)
    ensures qs[i] in wanted && WordsAt(data, p, count).Ok? ==>
      QuantityFieldsAt(data, p, qs, i, wanted, size, m, count, d) ==
      QuantityFieldsAt(data, p + 4 * count, qs, i + 1, wanted, size, m, count, Store(d, qs[i], WordsAt(data, p, count).value, size, m))
  {
  }

  /** The grid vectors of a domain, under xgv, ygv and zgv. */
  function GridEntries(m: Mesh): (d: Domain)
    ensures d.Keys == {XGV, YGV, ZGV}
    ensures d[XGV] == Grid(m.xs) && d[YGV] == Grid(m.ys) && d[ZGV] == Grid(m.zs)
  {
    map[XGV := Grid(m.xs), YGV := Grid(m.ys), ZGV := Grid(m.zs)]
  }

  /** One domain record: its mesh, then its quantities. */
  function DomainAt(data: Bytes, p: nat, qs: seq<Bytes>, wanted: set<Bytes>, size: nat): (r: Result<(Domain, nat)>)
    requires size == 1 || size == 3
    ensures r.Ok? ==> p <= r.value.1
    ensures r.Err? ==> ReadError(r.error)
  {
    var mesh :- MeshAt(data, p);
    QuantityFieldsAt(data, mesh.1, qs, 0, wanted, size, mesh.0, QuantityWords(mesh.0, size), GridEntries(mesh.0))
  }

  /** Domain records `i` to `n - 1` appended to `doms`, in stream order. */
  function DomainsFrom(data: Bytes, p: nat, i: nat, n: nat, qs: seq<Bytes>, wanted: set<Bytes>, size: nat, doms: seq<Domain>)
    : (r: Result<(seq<Domain>, nat)>)
    requires i <= n
    requires size == 1 || size == 3
    ensures r.Ok? ==> |r.value.0| == |doms| + (n - i) && p <= r.value.1
    ensures r.Ok? ==> forall k :: 0 <= k < |doms| ==> r.value.0[k] == doms[k]
    ensures r.Err? ==> ReadError(r.error)
    decreases n - i
  {
    if i == n then Ok((doms, p))
    else
      var d :- DomainAt(data, p, qs, wanted, size);
      DomainsFrom(data, d.1, i + 1, n, qs, wanted, size, doms + [d.0])
  }

  /** One domain of DomainsFrom: a failed record ends the fold, a read one is appended. */
  lemma DomainsFromStep(data: Bytes, p: nat, i: nat, n: nat, qs: seq<Bytes>, wanted: set<Bytes>, size: nat, doms: seq<Domain>)
    requires i < n
    requires size == 1 || size == 3
    ensures DomainAt(data, p, qs, wanted, size).Err? ==>
      DomainsFrom(data, p, i, n, qs, wanted, size, doms) == Err(DomainAt(data, p, qs, wanted, size).error)
    ensures DomainAt(data, p, qs, wanted, size).Ok? ==>
      DomainsFrom(data, p, i, n, qs, wanted, size, doms) ==
      DomainsFrom(data, DomainAt(data, p, qs, wanted, size).value.1, i + 1, n, qs, wanted, size,
                  doms + [DomainAt(data, p, qs, wanted, size).value.0])
  {
  }

  /**
   * read_flds on an opened dump: the header, the component count its dump type selects, the
   * requested names checked against the declared ones, then `domains` domain records.
   */
  function FldsAt(data: Bytes, p: nat, requested: seq<Bytes>): (r: Result<((seq<Domain>, Header), nat)>)
    ensures r.Ok? ==> HeaderAt(data, p).Ok? && r.value.0.1 == HeaderAt(data, p).value.0
    ensures r.Ok? ==> HeaderAt(data, p).value.1 <= r.value.1
  {
    var h :- HeaderAt(data, p);
    var header := h.0;
    var size :- ComponentCount(header.dumpType);
    HeaderDumpTypes(data, p);
    var qs := Names(header.body.quantities);
    var wanted :- Wanted(requested, qs);
    var doms :- DomainsFrom(data, h.1, 0, Max(header.body.domains, 0), qs, wanted, size, []);
    Ok(((doms.0, header), doms.1))
  }

  // ---------------------------------------------------------------- properties

  /** Skipping every quantity reads nothing, so it never fails and ends `|qs|` strides on. */
  lemma {:induction false} SkipAllNeverFails(data: Bytes, p: nat, qs: seq<Bytes>, i: nat, size: nat, m: Mesh, count: nat, d: Domain)
    requires i <= |qs|
    requires size == 1 || size == 3
    requires count == QuantityWords(m, size)
    ensures QuantityFieldsAt(data, p, qs, i, {}, size, m, count, d) == Ok((d, Advance(p, |qs| - i, 4 * count)))
    decreases |qs| - i
  {
    if i < |qs| {
      SkipAllNeverFails(data, p + 4 * count, qs, i + 1, size, m, count, d);
    }
  }

  /**
   * A domain record ends `nAll * 4 * size` bytes per declared quantity after its mesh,
   * whichever quantities are wanted: a skipped quantity moves the position as far as a decoded one.
   */
  lemma DomainEnd(data: Bytes, p: nat, qs: seq<Bytes>, wanted: set<Bytes>, size: nat)
    requires size == 1 || size == 3
    requires DomainAt(data, p, qs, wanted, size).Ok?
    ensures MeshAt(data, p).Ok?
    ensures DomainAt(data, p, qs, wanted, size).value.1 ==
      MeshAt(data, p).value.1 + |qs| * (Cells(MeshAt(data, p).value.0) * 4 * size)
  {
    var mesh := MeshAt(data, p).value;
    AdvanceIsProduct(mesh.1, |qs|, 4 * QuantityWords(mesh.0, size));
    StrideIsQuantityBytes(mesh.0, size);
  }

  /** A decoded quantity holds, at [k][j][i] of component `c`, the word at its offset in the stream. */
  lemma DecodedComponentWord(data: Bytes, p: nat, m: Mesh, size: nat, c: nat, k: nat, j: nat, i: nat)
    requires (size == 1 || size == 3) && c < size
    requires WordsAt(data, p, QuantityWords(m, size)).Ok?
    requires k < m.nK && j < m.nJ && i < m.nI
    ensures p + 4 * RawIndex(m, size, c, k, j, i) + 4 <= |data|
    ensures
      var raw := WordsAt(data, p, QuantityWords(m, size)).value;
      var a := Reshape(Channel(raw, Cells(m), size, c), m);
      |a[k]| == m.nJ && |a[k][j]| == m.nI && a[k][j][i] == WordAt(data, p + 4 * RawIndex(m, size, c, k, j, i))
  {
    var raw := WordsAt(data, p, QuantityWords(m, size)).value;
    ComponentIndex(raw, m, size, c, k, j, i);
    assert raw[RawIndex(m, size, c, k, j, i)] == WordAt(data, p + 4 * RawIndex(m, size, c, k, j, i));
  }

  // ---------------------------------------------------------------- what a domain holds

  /** A key of a quantity names that quantity: two quantities share a key only when they share a name. */
  lemma ComponentKeysOwner(a: Bytes, b: Bytes, size: nat, c: nat)
    requires (size == 1 || size == 3) && c < size
    requires ComponentKeys(a, size)[c] in ComponentKeys(b, size)
    ensures a == b
  {
    if size == 3 {
      var keys := ComponentKeys(b, 3);
      var c' :| 0 <= c' < 3 && keys[c'] == ComponentKeys(a, 3)[c];
      assert |a| == |b|;
      assert a == ComponentKeys(a, 3)[c][..|a|];
      assert b == keys[c'][..|b|];
    }
  }

  /**
   * The keys after quantities `i` and up are stored into `d`: those of `d`, and the keys of
   * every wanted quantity among them.
   */
  lemma {:induction false} QuantityFieldsKeys(data: Bytes, p: nat, qs: seq<Bytes>, i: nat, wanted: set<Bytes>, size: nat, m: Mesh, count: nat, d: Domain)
    requires i <= |qs|
    requires size == 1 || size == 3
    requires count == QuantityWords(m, size)
    ensures QuantityFieldsAt(data, p, qs, i, wanted, size, m, count, d).Ok? ==>
      forall key :: key in QuantityFieldsAt(data, p, qs, i, wanted, size, m, count, d).value.0 <==>
        key in d || exists k :: i <= k < |qs| && qs[k] in wanted && key in ComponentKeys(qs[k], size)
    decreases |qs| - i
  {
    if i < |qs| {
      QuantityFieldsStep(data, p, qs, i, wanted, size, m, count, d);
      var d' := d;
      if qs[i] in wanted && WordsAt(data, p, count).Ok? {
        d' := Store(d, qs[i], WordsAt(data, p, count).value, size, m);
        StoreEntries(d, qs[i], WordsAt(data, p, count).value, size, m);
      }
      if qs[i] !in wanted || WordsAt(data, p, count).Ok? {
        QuantityFieldsKeys(data, p + 4 * count, qs, i + 1, wanted, size, m, count, d');
        forall key
          ensures (exists k :: i <= k < |qs| && qs[k] in wanted && key in ComponentKeys(qs[k], size)) <==>
            (qs[i] in wanted && key in ComponentKeys(qs[i], size)) ||
            (exists k :: i + 1 <= k < |qs| && qs[k] in wanted && key in ComponentKeys(qs[k], size))
        {
        }
      }
    }
  }

  /** A key of `d` that no wanted quantity from `i` on is stored under keeps its entry. */
  lemma {:induction false} QuantityFieldsKeeps(data: Bytes, p: nat, qs: seq<Bytes>, i: nat, wanted: set<Bytes>, size: nat, m: Mesh, count: nat, d: Domain, key: Bytes)
    requires i <= |qs|
    requires size == 1 || size == 3
    requires count == QuantityWords(m, size)
    requires key in d
    requires forall k :: i <= k < |qs| && qs[k] in wanted ==> key !in ComponentKeys(qs[k], size)
    ensures QuantityFieldsAt(data, p, qs, i, wanted, size, m, count, d).Ok? ==>
      key in QuantityFieldsAt(data, p, qs, i, wanted, size, m, count, d).value.0 &&
      QuantityFieldsAt(data, p, qs, i, wanted, size, m, count, d).value.0[key] == d[key]
    decreases |qs| - i
  {
    if i < |qs| {
      QuantityFieldsStep(data, p, qs, i, wanted, size, m, count, d);
      if qs[i] !in wanted {
        QuantityFieldsKeeps(data, p + 4 * count, qs, i + 1, wanted, size, m, count, d, key);
      } else if WordsAt(data, p, count).Ok? {
        var d' := Store(d, qs[i], WordsAt(data, p, count).value, size, m);
        StoreEntries(d, qs[i], WordsAt(data, p, count).value, size, m);
        QuantityFieldsKeeps(data, p + 4 * count, qs, i + 1, wanted, size, m, count, d', key);
      }
    }
  }

  /** Domain `dom` holds under `key` component `c` of the quantity read at `q`, reshaped to the mesh. */
  predicate StoresComponent(dom: Domain, key: Bytes, data: Bytes, q: nat, m: Mesh, size: nat, c: nat)
    requires c < size
  {
    WordsAt(data, q, QuantityWords(m, size)).Ok? && key in dom &&
    dom[key] == Array(Reshape(Channel(WordsAt(data, q, QuantityWords(m, size)).value, Cells(m), size, c), m))
  }

  /**
   * Component `c` of the wanted quantity `qs[k]`, when no later quantity has its name, holds
   * the words read `k - i` quantities after `p`, split out and reshaped to (nK, nJ, nI).
   */
  lemma {:induction false} QuantityFieldsContent(data: Bytes, p: nat, qs: seq<Bytes>, i: nat, wanted: set<Bytes>, size: nat, m: Mesh, count: nat, d: Domain, k: nat, c: nat)
    requires i <= k < |qs| && qs[k] in wanted
    requires forall k' :: k < k' < |qs| ==> qs[k'] != qs[k]
    requires (size == 1 || size == 3) && c < size
    requires count == QuantityWords(m, size)
    ensures QuantityFieldsAt(data, p, qs, i, wanted, size, m, count, d).Ok? ==>
      StoresComponent(QuantityFieldsAt(data, p, qs, i, wanted, size, m, count, d).value.0,
                      ComponentKeys(qs[k], size)[c], data, Advance(p, k - i, 4 * count), m, size, c)
    decreases k - i
  {
    if i == k {
      QuantityFieldsContentHere(data, p, qs, wanted, size, m, count, d, k, c);
      return;
    }
    QuantityFieldsStep(data, p, qs, i, wanted, size, m, count, d);
    if qs[i] !in wanted {
      QuantityFieldsContent(data, p + 4 * count, qs, i + 1, wanted, size, m, count, d, k, c);
    } else if WordsAt(data, p, count).Ok? {
      var d' := Store(d, qs[i], WordsAt(data, p, count).value, size, m);
      QuantityFieldsContent(data, p + 4 * count, qs, i + 1, wanted, size, m, count, d', k, c);
    }
  }

  /** The quantity the loop is at is stored under its keys, and no later quantity replaces them. */
  lemma QuantityFieldsContentHere(data: Bytes, p: nat, qs: seq<Bytes>, wanted: set<Bytes>, size: nat, m: Mesh, count: nat, d: Domain, k: nat, c: nat)
    requires k < |qs| && qs[k] in wanted
    requires forall k' :: k < k' < |qs| ==> qs[k'] != qs[k]
    requires (size == 1 || size == 3) && c < size
    requires count == QuantityWords(m, size)
    ensures QuantityFieldsAt(data, p, qs, k, wanted, size, m, count, d).Ok? ==>
      StoresComponent(QuantityFieldsAt(data, p, qs, k, wanted, size, m, count, d).value.0,
                      ComponentKeys(qs[k], size)[c], data, p, m, size, c)
  {
    QuantityFieldsStep(data, p, qs, k, wanted, size, m, count, d);
    if WordsAt(data, p, count).Ok? {
      var raw := WordsAt(data, p, count).value;
      var d' := Store(d, qs[k], raw, size, m);
      var key := ComponentKeys(qs[k], size)[c];
      StoreEntries(d, qs[k], raw, size, m);
      forall k' | k < k' < |qs| && qs[k'] in wanted ensures key !in ComponentKeys(qs[k'], size) {
        if key in ComponentKeys(qs[k'], size) {
          ComponentKeysOwner(qs[k], qs[k'], size, c);
        }
      }
      QuantityFieldsKeeps(data, p + 4 * count, qs, k + 1, wanted, size, m, count, d', key);
    }
  }

  /**
   * A domain holds xgv, ygv and zgv and the keys of every wanted quantity, and nothing else:
   * a quantity that is not wanted leaves no key.
   */
  lemma DomainKeys(data: Bytes, p: nat, qs: seq<Bytes>, wanted: set<Bytes>, size: nat)
    requires size == 1 || size == 3
    ensures DomainAt(data, p, qs, wanted, size).Ok? ==>
      forall key :: key in DomainAt(data, p, qs, wanted, size).value.0 <==>
        key in {XGV, YGV, ZGV} || exists k :: 0 <= k < |qs| && qs[k] in wanted && key in ComponentKeys(qs[k], size)
  {
    var mesh := MeshAt(data, p);
    if mesh.Ok? {
      var m := mesh.value.0;
      QuantityFieldsKeys(data, mesh.value.1, qs, 0, wanted, size, m, QuantityWords(m, size), GridEntries(m));
    }
  }

  /** A grid vector that no wanted quantity's key replaces is the one read in the mesh. */
  lemma DomainGrid(data: Bytes, p: nat, qs: seq<Bytes>, wanted: set<Bytes>, size: nat, key: Bytes)
    requires size == 1 || size == 3
    requires key in {XGV, YGV, ZGV}
    requires forall k :: 0 <= k < |qs| && qs[k] in wanted ==> key !in ComponentKeys(qs[k], size)
    ensures DomainAt(data, p, qs, wanted, size).Ok? ==>
      MeshAt(data, p).Ok? && key in DomainAt(data, p, qs, wanted, size).value.0 &&
      DomainAt(data, p, qs, wanted, size).value.0[key] == GridEntries(MeshAt(data, p).value.0)[key]
  {
    var mesh := MeshAt(data, p);
    if mesh.Ok? {
      var m := mesh.value.0;
      QuantityFieldsKeeps(data, mesh.value.1, qs, 0, wanted, size, m, QuantityWords(m, size), GridEntries(m), key);
    }
  }

  /**
   * Component `c` of the wanted quantity `qs[k]` (the last quantity with its name) holds the
   * `k`-th quantity's words after the mesh, split out and reshaped to (nK, nJ, nI).
   */
  lemma DomainQuantity(data: Bytes, p: nat, qs: seq<Bytes>, wanted: set<Bytes>, size: nat, k: nat, c: nat)
    requires (size == 1 || size == 3) && c < size
    requires k < |qs| && qs[k] in wanted
    requires forall k' :: k < k' < |qs| ==> qs[k'] != qs[k]
    ensures DomainAt(data, p, qs, wanted, size).Ok? ==>
      MeshAt(data, p).Ok? &&
      StoresComponent(DomainAt(data, p, qs, wanted, size).value.0, ComponentKeys(qs[k], size)[c], data,
                      Advance(MeshAt(data, p).value.1, k, 4 * QuantityWords(MeshAt(data, p).value.0, size)),
                      MeshAt(data, p).value.0, size, c)
  {
    var mesh := MeshAt(data, p);
    if mesh.Ok? {
      var m := mesh.value.0;
      QuantityFieldsContent(data, mesh.value.1, qs, 0, wanted, size, m, QuantityWords(m, size), GridEntries(m), k, c);
    }
  }

  /** Entry `e` is an array whose cell [k][j][i] exists and is `w`. */
  predicate HasCell(e: Entry, k: nat, j: nat, i: nat, w: Word) {
    e.Array? && k < |e.cells| && j < |e.cells[k]| && i < |e.cells[k][j]| && e.cells[k][j][i] == w
  }

  /**
   * Cell [kk][jj][ii] of component `c` of the wanted quantity `qs[k]` (the last with its name)
   * is the stream word `4 * (((kk * nJ + jj) * nI + ii) * size + c)` bytes into the `k`-th
   * quantity after the mesh.
   */
  lemma DomainCell(data: Bytes, p: nat, qs: seq<Bytes>, wanted: set<Bytes>, size: nat, k: nat, c: nat, kk: nat, jj: nat, ii: nat)
    requires (size == 1 || size == 3) && c < size
    requires k < |qs| && qs[k] in wanted
    requires forall k' :: k < k' < |qs| ==> qs[k'] != qs[k]
    requires DomainAt(data, p, qs, wanted, size).Ok? && MeshAt(data, p).Ok?
    requires kk < MeshAt(data, p).value.0.nK && jj < MeshAt(data, p).value.0.nJ && ii < MeshAt(data, p).value.0.nI
    ensures StoredCell(DomainAt(data, p, qs, wanted, size).value.0, ComponentKeys(qs[k], size)[c], kk, jj, ii, data,
                       Advance(MeshAt(data, p).value.1, k, 4 * QuantityWords(MeshAt(data, p).value.0, size)) +
                       4 * RawIndex(MeshAt(data, p).value.0, size, c, kk, jj, ii))
  {
    DomainQuantity(data, p, qs, wanted, size, k, c);
    StoredQuantityCell(DomainAt(data, p, qs, wanted, size).value.0, ComponentKeys(qs[k], size)[c], data,
                       Advance(MeshAt(data, p).value.1, k, 4 * QuantityWords(MeshAt(data, p).value.0, size)),
                       MeshAt(data, p).value.0, size, c, kk, jj, ii);
  }

  /** A domain that stores a decoded component under `key` holds its words at their offsets. */
  lemma StoredQuantityCell(dom: Domain, key: Bytes, data: Bytes, q: nat, m: Mesh, size: nat, c: nat, k: nat, j: nat, i: nat)
    requires (size == 1 || size == 3) && c < size
    requires StoresComponent(dom, key, data, q, m, size, c)
    requires k < m.nK && j < m.nJ && i < m.nI
    ensures StoredCell(dom, key, k, j, i, data, q + 4 * RawIndex(m, size, c, k, j, i))
  {
    QuantityCell(data, q, m, size, c, k, j, i);
  }

  /** Domain `dom` holds under `key` an array whose cell [k][j][i] is the stream word at `o`. */
  predicate StoredCell(dom: Domain, key: Bytes, k: nat, j: nat, i: nat, data: Bytes, o: nat) {
    o + 4 <= |data| && key in dom && HasCell(dom[key], k, j, i, WordAt(data, o))
  }

  /** A decoded component, as an entry, holds at [k][j][i] the word at its offset in the stream. */
  lemma QuantityCell(data: Bytes, q: nat, m: Mesh, size: nat, c: nat, k: nat, j: nat, i: nat)
    requires (size == 1 || size == 3) && c < size
    requires WordsAt(data, q, QuantityWords(m, size)).Ok?
    requires k < m.nK && j < m.nJ && i < m.nI
    ensures q + 4 * RawIndex(m, size, c, k, j, i) + 4 <= |data|
    ensures HasCell(Array(Reshape(Channel(WordsAt(data, q, QuantityWords(m, size)).value, Cells(m), size, c), m)),
                    k, j, i, WordAt(data, q + 4 * RawIndex(m, size, c, k, j, i)))
  {
    DecodedComponentWord(data, q, m, size, c, k, j, i);
  }

  // ---------------------------------------------------------------- the records in stream order

  /**
   * `doms` are the domain records from offset `p`, in stream order: each one starts where the
   * one before it ends, and the last one ends at `e`.
   */
  predicate DomainChain(data: Bytes, p: nat, qs: seq<Bytes>, wanted: set<Bytes>, size: nat, doms: seq<Domain>, e: nat)
    requires size == 1 || size == 3
    decreases |doms|
  {
    if doms == [] then p == e
    else
      DomainAt(data, p, qs, wanted, size).Ok? && DomainAt(data, p, qs, wanted, size).value.0 == doms[0] &&
      DomainChain(data, DomainAt(data, p, qs, wanted, size).value.1, qs, wanted, size, doms[1..], e)
  }

  /**
   * The domains read from `p` after those in `acc` are the chain of domain records from `p`,
   * ending where the reading ends.
   */
  lemma {:induction false} DomainsFromIsChain(data: Bytes, p: nat, i: nat, n: nat, qs: seq<Bytes>, wanted: set<Bytes>, size: nat, acc: seq<Domain>)
    requires i <= n
    requires size == 1 || size == 3
    ensures DomainsFrom(data, p, i, n, qs, wanted, size, acc).Ok? ==>
      var r := DomainsFrom(data, p, i, n, qs, wanted, size, acc).value;
      |acc| <= |r.0| && DomainChain(data, p, qs, wanted, size, r.0[|acc|..], r.1)
    decreases n - i
  {
    var r := DomainsFrom(data, p, i, n, qs, wanted, size, acc);
    if i == n {
      assert r.value.0[|acc|..] == [];
    } else {
      DomainsFromStep(data, p, i, n, qs, wanted, size, acc);
      var d := DomainAt(data, p, qs, wanted, size);
      if d.Ok? {
        var acc' := acc + [d.value.0];
        DomainsFromIsChain(data, d.value.1, i + 1, n, qs, wanted, size, acc');
        if r.Ok? {
          var ds := r.value.0[|acc|..];
          assert ds[0] == r.value.0[|acc|] == acc'[|acc|];
          assert ds[1..] == r.value.0[|acc'|..];
        }
      }
    }
  }

  /** Whatever two requests want, the domain records they both read end at the same offset. */
  lemma {:induction false} DomainsFromEndAnyRequest(data: Bytes, p: nat, i: nat, n: nat, qs: seq<Bytes>, w1: set<Bytes>, w2: set<Bytes>, size: nat, d1: seq<Domain>, d2: seq<Domain>)
    requires i <= n
    requires size == 1 || size == 3
    ensures DomainsFrom(data, p, i, n, qs, w1, size, d1).Ok? && DomainsFrom(data, p, i, n, qs, w2, size, d2).Ok? ==>
      DomainsFrom(data, p, i, n, qs, w1, size, d1).value.1 == DomainsFrom(data, p, i, n, qs, w2, size, d2).value.1
    decreases n - i
  {
    if i < n {
      DomainsFromStep(data, p, i, n, qs, w1, size, d1);
      DomainsFromStep(data, p, i, n, qs, w2, size, d2);
      var a := DomainAt(data, p, qs, w1, size);
      var b := DomainAt(data, p, qs, w2, size);
      if a.Ok? && b.Ok? {
        assert a.value.1 == b.value.1;
        DomainsFromEndAnyRequest(data, a.value.1, i + 1, n, qs, w1, w2, size, d1 + [a.value.0], d2 + [b.value.0]);
      }
    }
  }

  /**
   * The domains read_flds returns are the chain of domain records right after the header,
   * read with the header's component count and the checked request, and the stream is left
   * at the end of the last one.
   */
  lemma FldsDomains(data: Bytes, p: nat, requested: seq<Bytes>)
    requires FldsAt(data, p, requested).Ok?
    ensures
      var h := HeaderAt(data, p).value;
      var qs := Names(h.0.body.quantities);
      h.0.body.FieldsBody? && ComponentCount(h.0.dumpType).Ok? && Wanted(requested, qs).Ok? &&
      DomainChain(data, h.1, qs, Wanted(requested, qs).value, ComponentCount(h.0.dumpType).value,
                  FldsAt(data, p, requested).value.0.0, FldsAt(data, p, requested).value.1)
  {
    var h := HeaderAt(data, p).value;
    HeaderDumpTypes(data, p);
    var qs := Names(h.0.body.quantities);
    var size := ComponentCount(h.0.dumpType).value;
    var wanted := Wanted(requested, qs).value;
    DomainsFromIsChain(data, h.1, 0, Max(h.0.body.domains, 0), qs, wanted, size, []);
    var r := DomainsFrom(data, h.1, 0, Max(h.0.body.domains, 0), qs, wanted, size, []).value;
    assert r.0[0..] == r.0;
  }

  /**
   * read_flds leaves the stream at the end of the last domain record, the same offset
   * whichever quantities two successful requests ask for.
   */
  lemma FldsEndAnyRequest(data: Bytes, p: nat, r1: seq<Bytes>, r2: seq<Bytes>)
    requires FldsAt(data, p, r1).Ok? && FldsAt(data, p, r2).Ok?
    ensures FldsAt(data, p, r1).value.1 == FldsAt(data, p, r2).value.1
  {
    var h := HeaderAt(data, p).value;
    HeaderDumpTypes(data, p);
    var qs := Names(h.0.body.quantities);
    var size := ComponentCount(h.0.dumpType).value;
    DomainsFromEndAnyRequest(data, h.1, 0, Max(h.0.body.domains, 0), qs, Wanted(r1, qs).value, Wanted(r2, qs).value, size, [], []);
  }

  /** read_flds returns one domain per declared domain, none for a negative count. */
  lemma FldsDomainCount(data: Bytes, p: nat, requested: seq<Bytes>)
    requires FldsAt(data, p, requested).Ok?
    ensures
      var header := HeaderAt(data, p).value.0;
      header.body.FieldsBody? && |FldsAt(data, p, requested).value.0.0| == Max(header.body.domains, 0)
  {
    HeaderDumpTypes(data, p);
  }

  /** A readable header of any dump type other than 2 or 3 is rejected before anything else. */
  lemma FldsRejectsOtherDumps(data: Bytes, p: nat, requested: seq<Bytes>)
    requires HeaderAt(data, p).Ok?
    requires HeaderAt(data, p).value.0.dumpType != 2 && HeaderAt(data, p).value.0.dumpType != 3
    ensures FldsAt(data, p, requested) == Err(NotFieldsFile(HeaderAt(data, p).value.0.dumpType))
  {
  }

  /** A fields or scalars dump is never rejected as the wrong kind of dump. */
  lemma FldsAcceptsFieldDumps(data: Bytes, p: nat, requested: seq<Bytes>)
    requires HeaderAt(data, p).Ok?
    requires HeaderAt(data, p).value.0.dumpType in {2, 3}
    ensures FldsAt(data, p, requested).Err? ==> !FldsAt(data, p, requested).error.NotFieldsFile?
  {
    var h := HeaderAt(data, p).value;
    HeaderDumpTypes(data, p);
    var size := ComponentCount(h.0.dumpType).value;
    var qs := Names(h.0.body.quantities);
    var wanted := Wanted(requested, qs);
    if wanted.Ok? {
      var doms := DomainsFrom(data, h.1, 0, Max(h.0.body.domains, 0), qs, wanted.value, size, []);
      assert doms.Err? ==> FldsAt(data, p, requested) == Err(doms.error);
    } else {
      assert FldsAt(data, p, requested) == Err(wanted.error);
    }
  }

  /**
   * A request naming an undeclared quantity is rejected with the first such name, whatever
   * the domain records hold: no domain is read.
   */
  lemma FldsRejectsUndeclared(data: Bytes, p: nat, requested: seq<Bytes>, k: nat)
    requires HeaderAt(data, p).Ok?
    requires HeaderAt(data, p).value.0.dumpType in {2, 3}
    requires k < |requested|
    requires requested[k] !in Names(HeaderAt(data, p).value.0.body.quantities)
    requires forall j :: 0 <= j < k ==> requested[j] in Names(HeaderAt(data, p).value.0.body.quantities)
    ensures FldsAt(data, p, requested) ==
      Err(QuantityNotAvailable(requested[k], Names(HeaderAt(data, p).value.0.body.quantities)))
  {
    HeaderDumpTypes(data, p);
    var qs := Names(HeaderAt(data, p).value.0.body.quantities);
    CheckFromFirstMissing(requested, qs, 0, k);
  }

  /** The check stops at the first undeclared name. */
  lemma {:induction false} CheckFromFirstMissing(requested: seq<Bytes>, qs: seq<Bytes>, i: nat, k: nat)
    requires i <= k < |requested| && requested[k] !in qs
    requires forall j :: i <= j < k ==> requested[j] in qs
    ensures CheckFrom(requested, qs, i) == Err(QuantityNotAvailable(requested[k], qs))
    decreases k - i
  {
    if i < k {
      CheckFromFirstMissing(requested, qs, i + 1, k);
    }
  }

  /** An empty request reads every declared quantity, as a request naming all of them does. */
  lemma FldsEmptyRequestMeansAll(data: Bytes, p: nat, requested: seq<Bytes>)
    requires HeaderAt(data, p).Ok? && HeaderAt(data, p).value.0.dumpType in {2, 3}
    requires requested != []
    requires forall q :: q in requested <==> q in Names(HeaderAt(data, p).value.0.body.quantities)
    ensures FldsAt(data, p, requested) == FldsAt(data, p, [])
  {
    HeaderDumpTypes(data, p);
    RequestAllIsEmptyRequest(requested, Names(HeaderAt(data, p).value.0.body.quantities));
  }

  // ---------------------------------------------------------------- the reader

  /** `get_float(file, N=n, forcearray=True)` after `n = get_int(file)`: one grid vector. */
  method GetGrid(s: Stream) returns (r: Result<seq<Word>>)
    modifies s
    ensures r == Values(GridAt(s.data, old(s.pos)))
    ensures r.Ok? ==> s.pos == GridAt(s.data, old(s.pos)).value.1
  {
    var n :- s.GetInt();
    r := s.GetFloats(n);
  }

  method GetMesh(s: Stream) returns (r: Result<Mesh>)
    modifies s
    ensures r == Values(MeshAt(s.data, old(s.pos)))
    ensures r.Ok? ==> s.pos == MeshAt(s.data, old(s.pos)).value.1
  {
    var _ :- s.GetInts(3);
    var xs :- GetGrid(s);
    var ys :- GetGrid(s);
    var zs :- GetGrid(s);
    r := Ok(Mesh(|xs|, |ys|, |zs|, xs, ys, zs));
  }

  /** `for quantity in qs`: each declared quantity skipped or decoded into `d`. */
  method GetQuantityFields(s: Stream, qs: seq<Bytes>, wanted: set<Bytes>, size: nat, m: Mesh, d0: Domain)
    returns (r: Result<Domain>)
    requires size == 1 || size == 3
    modifies s
    ensures r == Values(QuantityFieldsAt(s.data, old(s.pos), qs, 0, wanted, size, m, QuantityWords(m, size), d0))
    ensures r.Ok? ==> s.pos == QuantityFieldsAt(s.data, old(s.pos), qs, 0, wanted, size, m, QuantityWords(m, size), d0).value.1
  {
    var count := QuantityWords(m, size);
    var stride := 4 * count;  // nAll * 4 * size, by StrideIsQuantityBytes
    var d := d0;
    ghost var whole := QuantityFieldsAt(s.data, s.pos, qs, 0, wanted, size, m, count, d);
    var i := 0;
    while i < |qs|
      invariant 0 <= i <= |qs|
      invariant whole == QuantityFieldsAt(s.data, s.pos, qs, i, wanted, size, m, count, d)
    {
      QuantityFieldsStep(s.data, s.pos, qs, i, wanted, size, m, count, d);
      if qs[i] !in wanted {
        s.Skip(stride);
      } else {
        var raw := s.GetFloats(count);
        if raw.Err? {
          return Err(raw.error);
        }
        d := Store(d, qs[i], raw.value, size, m);
      }
      i := i + 1;
    }
    r := Ok(d);
  }

  /** One domain record: `d` starts with the grid vectors, then each quantity is skipped or stored. */
  method GetDomain(s: Stream, qs: seq<Bytes>, wanted: set<Bytes>, size: nat) returns (r: Result<Domain>)
    requires size == 1 || size == 3
    modifies s
    ensures r == Values(DomainAt(s.data, old(s.pos), qs, wanted, size))
    ensures r.Ok? ==> s.pos == DomainAt(s.data, old(s.pos), qs, wanted, size).value.1
  {
    var m :- GetMesh(s);
    r := GetQuantityFields(s, qs, wanted, size, m, GridEntries(m));
  }

  /**
   * The request check of read_flds: an empty request takes every declared name; otherwise
   * each requested name is looked up in turn and the first undeclared one is reported.
   */
  method CheckRequest(requested: seq<Bytes>, qs: seq<Bytes>) returns (r: Result<set<Bytes>>)
    ensures r == Wanted(requested, qs)
  {
    var flds := requested;
    if flds == [] {
      flds := qs;
    } else {
      var i := 0;
      while i < |flds|
        invariant 0 <= i <= |flds|
        invariant CheckFrom(flds, qs, 0) == CheckFrom(flds, qs, i)
      {
        if flds[i] !in qs {
          return Err(QuantityNotAvailable(flds[i], qs));
        }
        i := i + 1;
      }
    }
    r := Ok(set q | q in flds);
  }

  /** `for i in range(domains)`: `n` domain records, in stream order. */
  method GetDomains(s: Stream, n: nat, qs: seq<Bytes>, wanted: set<Bytes>, size: nat) returns (r: Result<seq<Domain>>)
    requires size == 1 || size == 3
    modifies s
    ensures r == Values(DomainsFrom(s.data, old(s.pos), 0, n, qs, wanted, size, []))
    ensures r.Ok? ==> s.pos == DomainsFrom(s.data, old(s.pos), 0, n, qs, wanted, size, []).value.1
  {
    var doms: seq<Domain> := [];
    ghost var whole := DomainsFrom(s.data, s.pos, 0, n, qs, wanted, size, []);
    var i := 0;
    while i < n
      invariant 0 <= i <= n
      invariant whole == DomainsFrom(s.data, s.pos, i, n, qs, wanted, size, doms)
    {
      DomainsFromStep(s.data, s.pos, i, n, qs, wanted, size, doms);
      var d := GetDomain(s, qs, wanted, size);
      if d.Err? {
        return Err(d.error);
      }
      doms := doms + [d.value];
      i := i + 1;
    }
    r := Ok(doms);
  }

  /**
   * read_flds(fname, flds) once the file is open: `requested` is `flds`, with None given as
   * the empty request.
   */
  method ReadFlds(s: Stream, requested: seq<Bytes>) returns (r: Result<(seq<Domain>, Header)>)
    modifies s
    ensures r == Values(FldsAt(s.data, old(s.pos), requested))
    ensures r.Ok? ==> s.pos == FldsAt(s.data, old(s.pos), requested).value.1
  {
    ghost var p := s.pos;
    var header :- GetHeader(s);
    var size: nat;
    if header.dumpType == 2 {
      size := 3;
    } else if header.dumpType == 3 {
      size := 1;
    } else {
      return Err(NotFieldsFile(header.dumpType));
    }
    HeaderDumpTypes(s.data, p);
    var qs := Names(header.body.quantities);
    var wanted :- CheckRequest(requested, qs);
    var doms :- GetDomains(s, Max(header.body.domains, 0), qs, wanted, size);
    r := Ok((doms, header));
  }

}
