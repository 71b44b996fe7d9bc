/**
 * The decision layer of the transformer classifier (src/pipeline.py). The
 * tokenizer and the network are one opaque function `infer` from a chunk of
 * texts to one row of class scores per text; what is modelled is the logic
 * around it: choosing the device, decoding a score row through argmax and
 * the fixed id-to-label table, and the batching loop of `predict_batch`.
 */
module Pipeline {
  import opened Labels
  import opened Sequences

  datatype Option<T> = None | Some(value: T)

  // ---------------------------------------------------------------------
  // Device choice
  // ---------------------------------------------------------------------

  /** Python truthiness of an optional string: neither None nor "". */
  predicate Truthy(s: Option<string>) {
    s.Some? && s.value != ""
  }

  /**
   * A truthy preferred device is used as given; otherwise "cuda" when an
   * accelerator is available and "cpu" when not.
   */
  function SelectDevice(preferred: Option<string>, cudaAvailable: bool): (device: string)
    ensures device != ""
    ensures Truthy(preferred) ==> device == preferred.value
    ensures !Truthy(preferred) && cudaAvailable ==> device == "cuda"
    ensures !Truthy(preferred) && !cudaAvailable ==> device == "cpu"
  {
    if Truthy(preferred) then preferred.value
    else if cudaAvailable then "cuda" else "cpu"
  }

  /** An empty override is falsy: it behaves exactly like no override. */
  lemma EmptyPreferenceIsAuto(cudaAvailable: bool)
    ensures SelectDevice(Some(""), cudaAvailable) == SelectDevice(None, cudaAvailable)
  {
  }

  /** Passing the chosen device back in as the preference chooses it again, whatever the hardware. */
  lemma SelectDeviceStable(preferred: Option<string>, cudaAvailable: bool, cudaLater: bool)
    ensures SelectDevice(Some(SelectDevice(preferred, cudaAvailable)), cudaLater)
         == SelectDevice(preferred, cudaAvailable)
  {
  }

  // ---------------------------------------------------------------------
  // Decoding a score row
  // ---------------------------------------------------------------------

  /** `label_map`: class id 0 is negative, class id 1 is positive. */
  const IdToLabel: map<int, string> := map[0 := Negative, 1 := Positive]

  /** The table is a bijection between the class ids {0, 1} and the two labels. */
  lemma IdToLabelBijective()
    ensures IdToLabel.Keys == {0, 1}
    ensures forall k :: k in IdToLabel ==> IsLabel(IdToLabel[k])
    ensures forall i, j :: i in IdToLabel && j in IdToLabel && IdToLabel[i] == IdToLabel[j] ==> i == j
    ensures forall l :: IsLabel(l) ==> exists k :: k in IdToLabel && IdToLabel[k] == l
  {
    forall l | IsLabel(l)
      ensures exists k :: k in IdToLabel && IdToLabel[k] == l
    {
      if l == Negative {
        assert IdToLabel[0] == l;
      } else {
        assert IdToLabel[1] == l;
      }
    }
  }

  /**
   * `argmax` of a score row: an index of a largest score, the first one when
   * several scores tie for largest.
   */
  function Argmax(row: seq<int>): (k: nat)
    requires |row| > 0
    ensures k < |row|
    ensures forall j :: 0 <= j < |row| ==> row[j] <= row[k]
    ensures forall j :: 0 <= j < k ==> row[j] < row[k]
  {
    if |row| == 1 then 0
    else
      var k := Argmax(row[..|row| - 1]);
      if row[|row| - 1] > row[k] then |row| - 1 else k
  }

  /** The first index of a largest score is unique, so argmax is determined by the row. */
  lemma ArgmaxUnique(row: seq<int>, k: nat)
    requires k < |row|
    requires forall j :: 0 <= j < |row| ==> row[j] <= row[k]
    requires forall j :: 0 <= j < k ==> row[j] < row[k]
    ensures Argmax(row) == k
  {
  }

  // ---------------------------------------------------------------------
  // The opaque model
  // ---------------------------------------------------------------------

  /** The encoder plus network, as a function from a chunk of texts to its score rows. */
  type Infer = seq<string> -> seq<seq<int>>

  /** One score row per input text and two class scores per row. */
  ghost predicate WellShaped(infer: Infer) {
    forall chunk: seq<string> ::
      |infer(chunk)| == |chunk| &&
      forall i :: 0 <= i < |chunk| ==> |infer(chunk)[i]| == 2
  }

  /** The scores of a text do not depend on the other texts of its chunk. */
  ghost predicate Pointwise(infer: Infer) {
    WellShaped(infer) &&
    forall chunk: seq<string>, i :: 0 <= i < |chunk| ==> infer(chunk)[i] == infer([chunk[i]])[0]
  }

  // ---------------------------------------------------------------------
  // Chunking
  // ---------------------------------------------------------------------

  /** The slices `xs[start:start + b]` for `start` in `range(0, len(xs), b)`, in order. */
  function Chunks(xs: seq<string>, b: nat): (cs: seq<seq<string>>)
    requires b >= 1
    ensures cs == [] <==> xs == []
    decreases |xs|
  {
    if xs == [] then []
    else
      var n := Min(b, |xs|);
      [xs[..n]] + Chunks(xs[n..], b)
  }

  /** The slices cover the input exactly, in order: concatenated they give it back. */
  lemma {:induction false} ChunksCover(xs: seq<string>, b: nat)
    requires b >= 1
    ensures Flatten(Chunks(xs, b)) == xs
    decreases |xs|
  {
    if xs != [] {
      var n := Min(b, |xs|);
      ChunksCover(xs[n..], b);
      assert Chunks(xs, b)[1..] == Chunks(xs[n..], b);
      assert xs[..n] + xs[n..] == xs;
    }
  }

  lemma MulStep(k: int, b: int)
    ensures k * b == (k - 1) * b + b
  {
  }

  /** There are ceil(|xs| / b) slices: b times their number covers xs, b times one fewer does not. */
  lemma {:induction false} ChunkCount(xs: seq<string>, b: nat)
    requires b >= 1
    ensures |Chunks(xs, b)| * b - b < |xs| <= |Chunks(xs, b)| * b
    decreases |xs|
  {
    if xs != [] {
      var n := Min(b, |xs|);
      ChunkCount(xs[n..], b);
      var m := |Chunks(xs[n..], b)|;
      assert |Chunks(xs, b)| == m + 1;
      MulStep(m + 1, b);
    }
  }

  /**
   * Slice k starts at `start` = k * b and is cut at start + b or at the end
   * of the input: the slices are contiguous, do not overlap and are taken in
   * order of increasing start.
   */
  lemma {:induction false} ChunkAt(xs: seq<string>, b: nat, k: nat, start: nat)
    requires b >= 1 && k < |Chunks(xs, b)| && start == k * b
    ensures start < |xs|
    ensures Chunks(xs, b)[k] == xs[start .. Min(start + b, |xs|)]
    decreases k
  {
    if k > 0 {
      ChunksStep(xs, b);
      MulStep(k, b);
      ChunkAt(xs[b..], b, k - 1, start - b);
      ShiftSlice(xs, b, start);
      assert Chunks(xs, b)[k] == Chunks(xs[b..], b)[k - 1];
    }
  }

  /** A slice of the input after its first b items, shifted back to the input's own indices. */
  lemma ShiftSlice(xs: seq<string>, b: nat, start: nat)
    requires b <= start < |xs|
    ensures xs[b..][start - b .. Min(start - b + b, |xs[b..]|)] == xs[start .. Min(start + b, |xs|)]
  {
    var hi := Min(start + b, |xs|);
    assert Min(start - b + b, |xs[b..]|) == hi - b;
  }

  /** Past the first slice, the slices are those of the input after its first b items. */
  lemma ChunksStep(xs: seq<string>, b: nat)
    requires b >= 1 && |Chunks(xs, b)| > 1
    ensures |xs| > b
    ensures Chunks(xs, b)[1..] == Chunks(xs[b..], b)
  {
    var n := Min(b, |xs|);
    assert Chunks(xs, b) == [xs[..n]] + Chunks(xs[n..], b);
    assert Chunks(xs[n..], b) != [];
  }


  /** Every slice holds between 1 and b items, and only the last may hold fewer than b. */
  lemma ChunkSize(xs: seq<string>, b: nat, k: nat)
    requires b >= 1 && k < |Chunks(xs, b)|
    ensures 0 < |Chunks(xs, b)[k]| <= b
    ensures k < |Chunks(xs, b)| - 1 ==> |Chunks(xs, b)[k]| == b
  {
    ChunkAt(xs, b, k, k * b);
    if k < |Chunks(xs, b)| - 1 {
      MulStep(k + 1, b);
      ChunkAt(xs, b, k + 1, k * b + b);
    }
  }

  // ---------------------------------------------------------------------
  // The classifier
  // ---------------------------------------------------------------------

  const DefaultBatchSize: nat := 16

  class SentimentClassifier {
    /** Where the model runs; only chosen, never used by the decision logic. */
    const device: string
    /** `label_map` */
    const labelMap: map<int, string>
    /** The loaded tokenizer and model, as one opaque function. */
    const infer: Infer

    ghost predicate Valid() {
      labelMap == IdToLabel && WellShaped(infer)
    }

    /** `__init__`: chooses the device and fixes the label table; the model is given. */
    constructor(preferredDevice: Option<string>, cudaAvailable: bool, infer: Infer)
      requires WellShaped(infer)
      ensures Valid()
      ensures device == SelectDevice(preferredDevice, cudaAvailable)
      ensures this.infer == infer
    {
      device := SelectDevice(preferredDevice, cudaAvailable);
      labelMap := IdToLabel;
      this.infer := infer;
    }

    /**
     * Argmax, then the label table: "positive" exactly when the positive
     * score is strictly larger, so equal scores decode to "negative".
     */
    function Decode(row: seq<int>): (name: string)
      requires Valid() && |row| == 2
      ensures IsLabel(name)
      ensures name == Positive <==> row[1] > row[0]
      ensures name == Negative <==> row[0] >= row[1]
    {
      labelMap[Argmax(row)]
    }

    /** Labels of a chunk's score rows, in row order. */
    function DecodeAll(rows: seq<seq<int>>): (labels: seq<string>)
      requires Valid()
      requires forall i :: 0 <= i < |rows| ==> |rows[i]| == 2
      ensures |labels| == |rows|
      ensures forall i :: 0 <= i < |rows| ==> labels[i] == Decode(rows[i])
    {
      seq(|rows|, i requires 0 <= i < |rows| => Decode(rows[i]))
    }

    /** `predict_one`: the only score row of a one-text chunk, decoded. */
    function PredictOne(text: string): (name: string)
      requires Valid()
      ensures IsLabel(name)
      ensures name == Positive <==> infer([text])[0][1] > infer([text])[0][0]
    {
      assert |infer([text])| == 1;
      Decode(infer([text])[0])
    }

    /** The labels of each chunk, chunk after chunk. */
    function DecodeChunks(cs: seq<seq<string>>): (labels: seq<string>)
      requires Valid()
      ensures |labels| == |Flatten(cs)|
    {
      if cs == [] then []
      else DecodeAll(infer(cs[0])) + DecodeChunks(cs[1..])
    }

    /** What `predict_batch` computes: every chunk through the model, the labels in chunk order. */
    function Batched(texts: seq<string>, batchSize: nat): (labels: seq<string>)
      requires Valid() && batchSize >= 1
    {
      DecodeChunks(Chunks(texts, batchSize))
    }

    /** One label per text. */
    lemma BatchedLength(texts: seq<string>, batchSize: nat)
      requires Valid() && batchSize >= 1
      ensures |Batched(texts, batchSize)| == |texts|
    {
      ChunksCover(texts, batchSize);
    }

    /** The first chunk's labels come first, then those of the remaining texts. */
    lemma BatchedStep(texts: seq<string>, batchSize: nat)
      requires Valid() && batchSize >= 1 && texts != []
      ensures var n := Min(batchSize, |texts|);
              Batched(texts, batchSize) == DecodeAll(infer(texts[..n])) + Batched(texts[n..], batchSize)
    {
      var n := Min(batchSize, |texts|);
      assert Chunks(texts, batchSize)[1..] == Chunks(texts[n..], batchSize);
    }

    /** One step of the loop: the chunk at `start`, then the rest. */
    lemma BatchedFrom(texts: seq<string>, start: nat, batchSize: nat)
      requires Valid() && batchSize >= 1 && start < |texts|
      ensures var stop := Min(start + batchSize, |texts|);
              Batched(texts[start..], batchSize) == DecodeAll(infer(texts[start..stop])) + Batched(texts[stop..], batchSize)
    {
      var stop := Min(start + batchSize, |texts|);
      var suffix := texts[start..];
      var m := Min(batchSize, |suffix|);
      assert stop == start + m;
      BatchedStep(suffix, batchSize);
      assert suffix[..m] == texts[start..stop];
      assert suffix[m..] == texts[stop..];
    }

    /**
     * With a pointwise model, label i of a batch run is what `predict_one`
     * gives for text i, whatever the batch size.
     */
    lemma {:induction false} BatchedAgreesWithSingle(texts: seq<string>, batchSize: nat)
      requires Valid() && Pointwise(infer) && batchSize >= 1
      ensures |Batched(texts, batchSize)| == |texts|
      ensures forall i :: 0 <= i < |texts| ==> Batched(texts, batchSize)[i] == PredictOne(texts[i])
      decreases |texts|
    {
      BatchedLength(texts, batchSize);
      if texts != [] {
        var n := Min(batchSize, |texts|);
        var chunk, rest := texts[..n], texts[n..];
        BatchedStep(texts, batchSize);
        BatchedAgreesWithSingle(rest, batchSize);
        var head := DecodeAll(infer(chunk));
        forall i | 0 <= i < |texts|
          ensures Batched(texts, batchSize)[i] == PredictOne(texts[i])
        {
          if i < n {
            assert infer(chunk)[i] == infer([chunk[i]])[0];
            assert head[i] == Decode(infer(chunk)[i]);
          } else {
            assert texts[i] == rest[i - n];
          }
        }
      }
    }

    /** With a pointwise model the batch size does not change any label. */
    lemma BatchSizeIrrelevant(texts: seq<string>, b1: nat, b2: nat)
      requires Valid() && Pointwise(infer) && b1 >= 1 && b2 >= 1
      ensures Batched(texts, b1) == Batched(texts, b2)
    {
      BatchedAgreesWithSingle(texts, b1);
      BatchedAgreesWithSingle(texts, b2);
    }

    /** A single text in a batch of its own is decoded from the same row as `predict_one` uses. */
    lemma SingletonBatch(text: string, batchSize: nat)
      requires Valid() && batchSize >= 1
      ensures Batched([text], batchSize) == [PredictOne(text)]
    {
      BatchedStep([text], batchSize);
      assert [text][..1] == [text];
      assert [text][1..] == [];
    }

    /**
     * `predict_batch`: walks `start = 0, b, 2b, ...` below `|texts|`, runs
     * the model on `texts[start:start + b]` and extends `preds` with the
     * chunk's labels.
     */
    method PredictBatch(texts: seq<string>, batchSize: nat := DefaultBatchSize) returns (preds: seq<string>)
      requires Valid() && batchSize >= 1
      ensures preds == Batched(texts, batchSize)
      ensures |preds| == |texts|
      ensures Pointwise(infer) ==> forall i :: 0 <= i < |texts| ==> preds[i] == PredictOne(texts[i])
    {
      preds := [];
      var start := 0;
      ghost var done := 0;
      while start < |texts|
        invariant done == Min(start, |texts|)
        invariant |preds| == done
        invariant preds + Batched(texts[done..], batchSize) == Batched(texts, batchSize)
        decreases |texts| - start
      {
        var stop := Min(start + batchSize, |texts|);
        var chunk := texts[start..stop];
        var rows := infer(chunk);
        assert |rows| == |chunk|;
        var labels := DecodeAll(rows);
        BatchedFrom(texts, start, batchSize);
        ghost var tail := Batched(texts[stop..], batchSize);
        assert done == start;
        assert preds + (labels + tail) == Batched(texts, batchSize);
        preds := preds + labels;
        start := start + batchSize;
        done := stop;
        assert preds + tail == Batched(texts, batchSize);
      }
      BatchedLength(texts, batchSize);
      assert preds == Batched(texts, batchSize);
      if Pointwise(infer) {
        BatchedAgreesWithSingle(texts, batchSize);
      }
    }
  }
}
