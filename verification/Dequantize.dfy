/**
  Expanding a packed tensor, a chunk of rows at a time, into `value * scale + bias` cell by cell. What
  that product and sum are in half precision is left to a parameter.
  */
module Dequantize {
  import opened Wrappers
  import opened Jang

  const TARGET_CHUNK_VALUES: nat := 32_000_000

  /** A tensor, its elements held as the rows of its last dimension, in row-major order. */
  datatype Tensor<T> = Tensor(dtype: string, shape: seq<nat>, rows: seq<seq<T>>)

  /** How an element of a uint32 tensor is a word, and `value * scale + bias`. */
  datatype Arithmetic<!T> = Arithmetic(word: T -> nat, combine: (nat, T, T) -> T)

  datatype JangError = NotUint32 | TooFewDimensions | ShapesDiffer | EmptyRows | NotDivisible
    | UnsupportedWidth(valuesPerWord: nat)

  function Volume(shape: seq<nat>): nat {
    if |shape| == 0 then 1 else shape[0] * Volume(shape[1..])
  }

  function Leading(shape: seq<nat>): seq<nat>
    requires |shape| > 0
  {
    shape[..|shape| - 1]
  }

  function Columns(shape: seq<nat>): nat
    requires |shape| > 0
  {
    shape[|shape| - 1]
  }

  ghost predicate Shaped<T>(t: Tensor<T>) {
    |t.shape| > 0 ==>
      |t.rows| == Volume(Leading(t.shape)) && forall r | 0 <= r < |t.rows| :: |t.rows[r]| == Columns(t.shape)
  }

  // ---------------------------------------------------------------- cell by cell

  lemma ColumnInRange(c: nat, count: nat, width: nat)
    requires c < count * width
    ensures width > 0 && c / width < count
  {
    if width > 0 && c / width >= count { MultiplyKeepsOrder(width, count, c / width); }
  }

  lemma CellInRange(c: nat, words: nat, width: nat, groups: nat, groupSize: nat)
    requires c < groups * groupSize && words * width == groups * groupSize
    ensures width > 0 && groupSize > 0 && c / width < words && c / groupSize < groups
  {
    ColumnInRange(c, groups, groupSize);
    ColumnInRange(c, words, width);
  }

  /** The cell at column `c` of one row. */
  function Cell<T>(a: Arithmetic<T>, packed: seq<T>, scales: seq<T>, biases: seq<T>, groupSize: nat, valuesPerWord: nat,
                   c: nat): T
    requires |scales| == |biases| && c < |scales| * groupSize && |packed| * valuesPerWord == |scales| * groupSize
    requires IsPackingWidth(valuesPerWord)
  {
    CellInRange(c, |packed|, valuesPerWord, |scales|, groupSize);
    a.combine(Field(a.word(packed[c / valuesPerWord]), WORD_BITS / valuesPerWord, c % valuesPerWord),
              scales[c / groupSize], biases[c / groupSize])
  }

  /**
    What a packed tensor and its siblings must be, and how many values a word then holds. A row
    without columns is an error because NumPy cannot infer how many rows there are.
    */
  function ValuesPerWord<T>(packed: Tensor<T>, scales: Tensor<T>, biases: Tensor<T>, groupSize: nat)
    : (r: Result<nat, JangError>)
    ensures r.Success? ==>
      && |packed.shape| >= 2 && |scales.shape| >= 2 && scales.shape == biases.shape
      && Leading(scales.shape) == Leading(packed.shape)
      && IsPackingWidth(r.value) && Columns(packed.shape) * r.value == Columns(scales.shape) * groupSize
  {
    if packed.dtype != "uint32" then Failure(NotUint32)
    else if |packed.shape| < 2 || |scales.shape| < 2 || |biases.shape| < 2 then Failure(TooFewDimensions)
    else if scales.shape != biases.shape || Leading(scales.shape) != Leading(packed.shape) then Failure(ShapesDiffer)
    else if Columns(packed.shape) == 0 || Columns(scales.shape) == 0 then Failure(EmptyRows)
    else
      var columns := Columns(scales.shape) * groupSize;
      if columns % Columns(packed.shape) != 0 then Failure(NotDivisible)
      else
        var valuesPerWord := columns / Columns(packed.shape);
        if !IsPackingWidth(valuesPerWord) then Failure(UnsupportedWidth(valuesPerWord))
        else Success(valuesPerWord)
  }

  /** The pointwise formula for the whole tensor. */
  ghost function Dequantized<T>(a: Arithmetic<T>, packed: Tensor<T>, scales: Tensor<T>, biases: Tensor<T>,
                                groupSize: nat)
    : Result<Tensor<T>, JangError>
    requires Shaped(packed) && Shaped(scales) && Shaped(biases)
  {
    match ValuesPerWord(packed, scales, biases, groupSize)
    case Failure(e) => Failure(e)
    case Success(valuesPerWord) =>
      var columns := Columns(scales.shape) * groupSize;
      Success(Tensor("float16", Leading(packed.shape) + [columns],
        seq(|packed.rows|, r requires 0 <= r < |packed.rows| =>
          seq(columns, c requires 0 <= c < columns =>
            Cell(a, packed.rows[r], scales.rows[r], biases.rows[r], groupSize, valuesPerWord, c)))))
  }

  // ---------------------------------------------------------------- array operations on one row

  /** The fields of all words of a row, in order. */
  function Unpacked<T>(a: Arithmetic<T>, words: seq<T>, valuesPerWord: nat): seq<nat>
    requires valuesPerWord > 0
  {
    if |words| == 0 then []
    else Unpack(a.word(words[0]), WORD_BITS / valuesPerWord, valuesPerWord) + Unpacked(a, words[1..], valuesPerWord)
  }

  /** `np.repeat`: every value `count` times. */
  function Repeated<T>(values: seq<T>, count: nat): seq<T> {
    if |values| == 0 then [] else seq(count, i => values[0]) + Repeated(values[1..], count)
  }

  /** `s[:n]`, which Python allows for any `n`. */
  function Slice<T>(s: seq<T>, n: nat): seq<T> {
    if n <= |s| then s[..n] else s
  }

  lemma LessOne(count: nat, width: nat)
    requires count > 0
    ensures count * width == width + (count - 1) * width
  {}

  lemma PastOne(c: nat, width: nat)
    requires 0 < width <= c
    ensures c / width == (c - width) / width + 1 && c % width == (c - width) % width
  {
    var q, r := (c - width) / width, (c - width) % width;
    Distribute(width, q, 1);
    QuotientIs(c, width, q + 1, r);
  }

  lemma BeforeOne(c: nat, width: nat)
    requires c < width
    ensures c / width == 0 && c % width == c
  {
    QuotientIs(c, width, 0, c);
  }

  lemma {:induction false} UnpackedLength<T>(a: Arithmetic<T>, words: seq<T>, valuesPerWord: nat)
    requires valuesPerWord > 0
    ensures |Unpacked(a, words, valuesPerWord)| == |words| * valuesPerWord
  {
    if |words| > 0 {
      UnpackedLength(a, words[1..], valuesPerWord);
      LessOne(|words|, valuesPerWord);
    }
  }

  lemma {:induction false} UnpackedAt<T>(a: Arithmetic<T>, words: seq<T>, valuesPerWord: nat, c: nat)
    requires valuesPerWord > 0 && c < |words| * valuesPerWord
    ensures c < |Unpacked(a, words, valuesPerWord)| && c / valuesPerWord < |words|
    ensures Unpacked(a, words, valuesPerWord)[c]
         == Field(a.word(words[c / valuesPerWord]), WORD_BITS / valuesPerWord, c % valuesPerWord)
  {
    hide Field;
    UnpackedLength(a, words, valuesPerWord);
    ColumnInRange(c, |words|, valuesPerWord);
    if c < valuesPerWord {
      BeforeOne(c, valuesPerWord);
    } else {
      LessOne(|words|, valuesPerWord);
      PastOne(c, valuesPerWord);
      UnpackedAt(a, words[1..], valuesPerWord, c - valuesPerWord);
    }
  }

  lemma {:induction false} RepeatedLength<T>(values: seq<T>, count: nat)
    ensures |Repeated(values, count)| == |values| * count
  {
    if |values| > 0 {
      RepeatedLength(values[1..], count);
      LessOne(|values|, count);
    }
  }

  lemma {:induction false} RepeatedAt<T>(values: seq<T>, count: nat, c: nat)
    requires c < |values| * count
    ensures c < |Repeated(values, count)| && count > 0 && c / count < |values|
      && Repeated(values, count)[c] == values[c / count]
  {
    RepeatedLength(values, count);
    ColumnInRange(c, |values|, count);
    if c < count {
      BeforeOne(c, count);
    } else {
      LessOne(|values|, count);
      PastOne(c, count);
      RepeatedAt(values[1..], count, c - count);
    }
  }

  // ---------------------------------------------------------------- chunks of rows

  function Min(a: nat, b: nat): nat { if a < b then a else b }

  function RowsPerChunk(rowCount: nat, columns: nat): (n: nat)
    ensures n >= 1
  {
    var fitting := Min(rowCount, TARGET_CHUNK_VALUES / (if columns < 1 then 1 else columns));
    if fitting < 1 then 1 else fitting
  }

  /** A chunk's values fit the target, unless it is a single row that does not. */
  lemma ChunkIsBounded(rowCount: nat, columns: nat, rows: nat)
    requires rows <= RowsPerChunk(rowCount, columns)
    ensures rows * columns <= TARGET_CHUNK_VALUES || rows == 1 || columns == 0
  {
    if columns > 0 && rows > 1 {
      var fitting := TARGET_CHUNK_VALUES / columns;
      MultiplyKeepsOrder(columns, rows, fitting);
    }
  }

  /** Every row belongs to exactly one chunk, so every cell is written once. */
  lemma RowInExactlyOneChunk(rowCount: nat, perChunk: nat, r: nat, k: nat)
    requires perChunk > 0 && r < rowCount
    ensures k * perChunk <= r < Min(k * perChunk + perChunk, rowCount) <==> k == r / perChunk
  {
    if k * perChunk <= r < k * perChunk + perChunk { QuotientIs(r, perChunk, k, r - k * perChunk); }
  }

  method DequantizeRows<T(0)>(a: Arithmetic<T>, packed: seq<seq<T>>, scales: seq<seq<T>>, biases: seq<seq<T>>,
                              packedColumns: nat, groups: nat, groupSize: nat, valuesPerWord: nat)
    returns (dequantized: array2<T>)
    requires |packed| == |scales| == |biases| && IsPackingWidth(valuesPerWord)
      && packedColumns * valuesPerWord == groups * groupSize
    requires forall r | 0 <= r < |packed| ::
      |packed[r]| == packedColumns && |scales[r]| == groups && |biases[r]| == groups
    ensures dequantized.Length0 == |packed| && dequantized.Length1 == groups * groupSize
    ensures forall r, c | 0 <= r < |packed| && 0 <= c < groups * groupSize ::
      dequantized[r, c] == Cell(a, packed[r], scales[r], biases[r], groupSize, valuesPerWord, c)
  {
    hide Cell, Unpacked, Repeated, Field;
    var outputColumns := groups * groupSize;
    var rowCount := |packed|;
    dequantized := new T[rowCount, outputColumns];
    var rowsPerChunk := RowsPerChunk(rowCount, outputColumns);
    var rowStart := 0;
    while rowStart < rowCount
      invariant forall r, c | 0 <= r < Min(rowStart, rowCount) && 0 <= c < outputColumns ::
        dequantized[r, c] == Cell(a, packed[r], scales[r], biases[r], groupSize, valuesPerWord, c)
    {
      var rowEnd := Min(rowStart + rowsPerChunk, rowCount);
      ChunkIsBounded(rowCount, outputColumns, rowEnd - rowStart);
      for row := rowStart to rowEnd
        invariant forall r, c | 0 <= r < row && 0 <= c < outputColumns ::
          dequantized[r, c] == Cell(a, packed[r], scales[r], biases[r], groupSize, valuesPerWord, c)
      {
        var unpacked := Slice(Unpacked(a, packed[row], valuesPerWord), outputColumns);
        var expandedScales := Slice(Repeated(scales[row], groupSize), outputColumns);
        var expandedBiases := Slice(Repeated(biases[row], groupSize), outputColumns);
        SlicesRemoveNothing(a, packed[row], scales[row], biases[row], groupSize, valuesPerWord);
        for column := 0 to outputColumns
          invariant forall r, c | 0 <= r < row && 0 <= c < outputColumns ::
            dequantized[r, c] == Cell(a, packed[r], scales[r], biases[r], groupSize, valuesPerWord, c)
          invariant forall c | 0 <= c < column ::
            dequantized[row, c] == Cell(a, packed[row], scales[row], biases[row], groupSize, valuesPerWord, c)
        {
          CellFromRows(a, packed[row], scales[row], biases[row], groupSize, valuesPerWord, column);
          dequantized[row, column] := a.combine(unpacked[column], expandedScales[column], expandedBiases[column]);
        }
      }
      rowStart := rowStart + rowsPerChunk;
    }
  }

  /** The expanded rows are exactly as long as the output; the slices take all of them. */
  lemma SlicesRemoveNothing<T>(a: Arithmetic<T>, packed: seq<T>, scales: seq<T>, biases: seq<T>, groupSize: nat,
                               valuesPerWord: nat)
    requires |scales| == |biases| && IsPackingWidth(valuesPerWord) && |packed| * valuesPerWord == |scales| * groupSize
    ensures var columns := |scales| * groupSize;
      && Slice(Unpacked(a, packed, valuesPerWord), columns) == Unpacked(a, packed, valuesPerWord)
      && Slice(Repeated(scales, groupSize), columns) == Repeated(scales, groupSize)
      && Slice(Repeated(biases, groupSize), columns) == Repeated(biases, groupSize)
      && |Unpacked(a, packed, valuesPerWord)| == |Repeated(scales, groupSize)| == |Repeated(biases, groupSize)|
        == columns
  {
    hide Unpacked, Repeated;
    UnpackedLength(a, packed, valuesPerWord);
    RepeatedLength(scales, groupSize);
    RepeatedLength(biases, groupSize);
  }

  lemma CellFromRows<T>(a: Arithmetic<T>, packed: seq<T>, scales: seq<T>, biases: seq<T>, groupSize: nat,
                        valuesPerWord: nat, c: nat)
    requires |scales| == |biases| && c < |scales| * groupSize && |packed| * valuesPerWord == |scales| * groupSize
    requires IsPackingWidth(valuesPerWord)
    ensures c < |Unpacked(a, packed, valuesPerWord)| && c < |Repeated(scales, groupSize)|
      && c < |Repeated(biases, groupSize)|
    ensures a.combine(Unpacked(a, packed, valuesPerWord)[c], Repeated(scales, groupSize)[c],
      Repeated(biases, groupSize)[c])
         == Cell(a, packed, scales, biases, groupSize, valuesPerWord, c)
  {
    hide Unpacked, Repeated, Field;
    UnpackedAt(a, packed, valuesPerWord, c);
    RepeatedAt(scales, groupSize, c);
    RepeatedAt(biases, groupSize, c);
  }

  /** The rows of a two-dimensional array. */
  method RowsOf<T>(a: array2<T>) returns (rows: seq<seq<T>>)
    ensures |rows| == a.Length0
    ensures forall r | 0 <= r < |rows| :: |rows[r]| == a.Length1
    ensures forall r, c | 0 <= r < a.Length0 && 0 <= c < a.Length1 :: rows[r][c] == a[r, c]
  {
    rows := [];
    for r := 0 to a.Length0
      invariant |rows| == r && forall i | 0 <= i < r :: |rows[i]| == a.Length1
      invariant forall i, c | 0 <= i < r && 0 <= c < a.Length1 :: rows[i][c] == a[i, c]
    {
      var row: seq<T> := [];
      for c := 0 to a.Length1
        invariant |row| == c && forall j | 0 <= j < c :: row[j] == a[r, j]
      {
        row := row + [a[r, c]];
      }
      rows := rows + [row];
    }
  }

  /** `_dequantize_jang_tensor`. */
  method DequantizeJangTensor<T(0)>(a: Arithmetic<T>, packed: Tensor<T>, scales: Tensor<T>, biases: Tensor<T>,
                                    groupSize: nat)
    returns (r: Result<Tensor<T>, JangError>)
    requires Shaped(packed) && Shaped(scales) && Shaped(biases)
    ensures r == Dequantized(a, packed, scales, biases, groupSize)
  {
    var checked := ValuesPerWord(packed, scales, biases, groupSize);
    if checked.Failure? { return Failure(checked.error); }
    var groups := Columns(scales.shape);
    var dequantized := DequantizeRows(a, packed.rows, scales.rows, biases.rows, Columns(packed.shape), groups,
      groupSize, checked.value);
    var rows := RowsOf(dequantized);
    ghost var expected := Dequantized(a, packed, scales, biases, groupSize).value.rows;
    forall i | 0 <= i < |rows| ensures rows[i] == expected[i] {}
    assert rows == expected;
    r := Success(Tensor("float16", Leading(packed.shape) + [groups * groupSize], rows));
  }

  // ---------------------------------------------------------------- when it succeeds

  /** The tensors fit together: words of four, eight or sixteen values fill the groups of every row exactly. */
  ghost predicate FitsTogether<T>(packed: Tensor<T>, scales: Tensor<T>, biases: Tensor<T>, groupSize: nat) {
    && packed.dtype == "uint32"
    && |packed.shape| >= 2 && |packed.shape| == |scales.shape| && scales.shape == biases.shape
    && (forall i | 0 <= i < |packed.shape| - 1 :: packed.shape[i] == scales.shape[i])
    && var words, groups := packed.shape[|packed.shape| - 1], scales.shape[|scales.shape| - 1];
       && words > 0 && groups > 0
       && (words * 4 == groups * groupSize || words * 8 == groups * groupSize || words * 16 == groups * groupSize)
  }

  lemma WordsTimes(words: nat, columns: nat, k: nat)
    requires words > 0
    ensures words * k == columns <==> columns % words == 0 && columns / words == k
  {
    if words * k == columns { QuotientIs(columns, words, k, 0); }
  }

  lemma WordsPerRow(words: nat, columns: nat)
    requires words > 0
    ensures columns % words == 0 && IsPackingWidth(columns / words)
      <==> words * 4 == columns || words * 8 == columns || words * 16 == columns
  {
    WordsTimes(words, columns, 4);
    WordsTimes(words, columns, 8);
    WordsTimes(words, columns, 16);
  }

  /** Dequantising succeeds exactly when the tensors fit together. */
  lemma DequantizesExactly<T>(a: Arithmetic<T>, packed: Tensor<T>, scales: Tensor<T>, biases: Tensor<T>, groupSize: nat)
    requires Shaped(packed) && Shaped(scales) && Shaped(biases)
    ensures Dequantized(a, packed, scales, biases, groupSize).Success?
      <==> FitsTogether(packed, scales, biases, groupSize)
  {
    hide Shaped, IsPackingWidth, Cell;
    if |packed.shape| >= 2 && |scales.shape| >= 2 && |biases.shape| >= 2 {
      SameLeading(packed.shape, scales.shape);
      var words, groups := packed.shape[|packed.shape| - 1], scales.shape[|scales.shape| - 1];
      if words > 0 { WordsPerRow(words, groups * groupSize); }
    }
  }

  lemma SameLeading(a: seq<nat>, b: seq<nat>)
    requires |a| > 0 && |b| > 0
    ensures Leading(a) == Leading(b) <==> |a| == |b| && forall i | 0 <= i < |a| - 1 :: a[i] == b[i]
  {
    if Leading(a) == Leading(b) {
      assert |a| == |b|;
      forall i | 0 <= i < |a| - 1 ensures a[i] == b[i] { assert Leading(a)[i] == Leading(b)[i]; }
    }
  }

  /** Otherwise the first check that fails is reported. */
  lemma ErrorsInOrder<T>(packed: Tensor<T>, scales: Tensor<T>, biases: Tensor<T>, groupSize: nat)
    ensures var r := ValuesPerWord(packed, scales, biases, groupSize);
      && (packed.dtype != "uint32" <==> r == Failure(NotUint32))
      && (packed.dtype == "uint32" ==>
            var flat := |packed.shape| < 2 || |scales.shape| < 2 || |biases.shape| < 2;
            && (flat <==> r == Failure(TooFewDimensions))
            && (!flat ==>
                  var words, groups := packed.shape[|packed.shape| - 1], scales.shape[|scales.shape| - 1];
                  var apart := scales.shape != biases.shape
                    || scales.shape[..|scales.shape| - 1] != packed.shape[..|packed.shape| - 1];
                  && (apart <==> r == Failure(ShapesDiffer))
                  && (!apart ==> (words == 0 || groups == 0 <==> r == Failure(EmptyRows)))
                  && (!apart && words > 0 && groups > 0 ==>
                        && (groups * groupSize % words != 0 <==> r == Failure(NotDivisible))
                        && (groups * groupSize % words == 0 ==>
                              var width := groups * groupSize / words;
                              width !in {4, 8, 16} <==> r == Failure(UnsupportedWidth(width))))))
  {}
}
