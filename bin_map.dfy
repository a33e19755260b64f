/** The bin names `parseMatrixFormat` invents for a bare square matrix
    (script.js:255-278): the rows are cut into three runs of
    `ceil(size / 3)` bins named chr1, chr2 and chr3, and each bin gets the
    next id. */
module BinMap {
  import opened JsArrays

  /** `this.binSize`: the genomic length of one bin. */
  const BinSize := 1000000

  const Chromosomes := ["chr1", "chr2", "chr3"]

  /** A key of `binMap`, `chr:start-end`, kept as its three parts. */
  datatype BinKey = BinKey(chrom: string, start: int, end: int)

  /** `Math.ceil(size / 3)`: three runs of this length cover the rows. */
  function RunLength(size: nat): (r: nat)
    ensures size <= 3 * r < size + 3
  {
    (size + 2) / 3
  }

  /** The chromosome row `j` falls in. */
  function RunOf(j: int, size: nat): (r: int)
    requires 0 <= j < size
    ensures 0 <= r < 3
    ensures r * RunLength(size) <= j < (r + 1) * RunLength(size)
  {
    var n := RunLength(size);
    DivBounds(j, n);
    var r := j / n;
    assert r < 3 by {
      if r >= 3 {
        MulMono(3, r, n);
      }
    }
    r
  }

  /** The quotient `j / n` is the run of length `n` that holds `j`. */
  lemma DivBounds(j: nat, n: nat)
    requires n > 0
    ensures (j / n) * n <= j < (j / n + 1) * n
  {
    var r := j / n;
    assert j == r * n + j % n;
    assert (r + 1) * n == r * n + n;
  }

  lemma MulMono(a: int, b: int, n: nat)
    requires a <= b
    ensures a * n <= b * n
  {
  }

  /** The key the program gives row `j`. */
  function KeyOf(j: int, size: nat): BinKey
    requires 0 <= j < size
  {
    BinKey(Chromosomes[RunOf(j, size)], j * BinSize, (j + 1) * BinSize)
  }

  /** A row between `i * n` and `(i + 1) * n` lies in run `i`. */
  lemma RunOfWithin(j: int, size: nat, i: int)
    requires 0 <= j < size && 0 <= i
    requires i * RunLength(size) <= j < (i + 1) * RunLength(size)
    ensures RunOf(j, size) == i
  {
    var n := RunLength(size);
    var r := RunOf(j, size);
    if r < i {
      MulMono(r + 1, i, n);
    } else if r > i {
      MulMono(i + 1, r, n);
    }
  }

  /** Every row `0 .. size - 1` is keyed by its own position, and the map
      holds nothing else: one entry per row. */
  method AssignBins(size: nat) returns (binMap: map<BinKey, int>)
    ensures |binMap| == size
    ensures forall j :: 0 <= j < size ==> KeyOf(j, size) in binMap && binMap[KeyOf(j, size)] == j
    ensures forall k :: k in binMap ==> 0 <= binMap[k] < size && k == KeyOf(binMap[k], size)
  {
    var n := RunLength(size);
    binMap := map[];
    var binId := 0;
    var i := 0;
    while i < |Chromosomes|
      invariant 0 <= i <= 3
      invariant binId == Min(i * n, size) && |binMap| == binId
      invariant KeyedBelow(binMap, size, binId)
    {
      var start := i * n;
      var end := Min((i + 1) * n, size);
      MulMono(i, i + 1, n);
      binMap, binId := AssignRun(size, i, start, end, binMap, binId);
      i := i + 1;
    }
  }

  /** The inner loop for chromosome `i`: rows `start .. end - 1`. */
  method AssignRun(size: nat, i: int, start: int, end: int, binMap0: map<BinKey, int>, binId0: int)
    returns (binMap: map<BinKey, int>, binId: int)
    requires 0 <= i < 3
    requires start == i * RunLength(size) && end == Min((i + 1) * RunLength(size), size)
    requires start <= (i + 1) * RunLength(size)
    requires binId0 == Min(start, size) && |binMap0| == binId0
    requires KeyedBelow(binMap0, size, binId0)
    ensures binId == end && |binMap| == binId
    ensures KeyedBelow(binMap, size, binId)
  {
    binMap, binId := binMap0, binId0;
    var j := start;
    while j < end
      invariant start <= j && (j <= end || end < start)
      invariant binId == Min(j, size) && |binMap| == binId
      invariant KeyedBelow(binMap, size, binId)
    {
      RunOfWithin(j, size, i);
      var key := BinKey(Chromosomes[i], j * BinSize, (j + 1) * BinSize);
      assert key == KeyOf(j, size);
      Extend(binMap, size, j);
      binMap := binMap[key := binId];
      binId := binId + 1;
      j := j + 1;
    }
  }

  /** The rows below `binId` keyed by position. */
  predicate KeyedBelow(binMap: map<BinKey, int>, size: nat, binId: int) {
    && binId <= size
    && (forall q :: 0 <= q < binId ==> KeyOf(q, size) in binMap && binMap[KeyOf(q, size)] == q)
    && (forall k :: k in binMap ==> 0 <= binMap[k] < binId && k == KeyOf(binMap[k], size))
  }

  /** Keying the next row adds a new entry. */
  lemma Extend(binMap: map<BinKey, int>, size: nat, j: int)
    requires 0 <= j < size
    requires KeyedBelow(binMap, size, j)
    ensures KeyOf(j, size) !in binMap
    ensures KeyedBelow(binMap[KeyOf(j, size) := j], size, j + 1)
  {
    assert forall k :: k in binMap ==> k.start < KeyOf(j, size).start;
  }

  /** Row `j` is named after chromosome `i` exactly when it lies in the
      `i`-th run of `ceil(size / 3)` rows. */
  lemma ChromosomeOfRow(j: int, size: nat, i: int)
    requires 0 <= j < size && 0 <= i < 3
    ensures KeyOf(j, size).chrom == Chromosomes[i] <==> i * RunLength(size) <= j < (i + 1) * RunLength(size)
  {
    if i * RunLength(size) <= j < (i + 1) * RunLength(size) {
      RunOfWithin(j, size, i);
    }
    if KeyOf(j, size).chrom == Chromosomes[i] {
      assert Chromosomes[0] != Chromosomes[1] && Chromosomes[1] != Chromosomes[2] && Chromosomes[0] != Chromosomes[2];
      assert RunOf(j, size) == i;
    }
  }
}
