/**
 The class CKMSQuantiles of core/src/detail/ckms_quantiles.cc. Every method is proved to do
 to the fields exactly what the corresponding function of CkmsSketch does to their value.
 */
module Ckms {
  import opened Wrappers
  import opened Sequences
  import opened CkmsSketch
  import opened CkmsExact

  class CkmsQuantiles {
    const quantiles: seq<Target>
    var count: nat
    var sample: seq<Item>
    const buffer: array<real>
    var bufferCount: nat

    /** Between public calls the buffer always has room for one more value. */
    ghost predicate Valid()
      reads this, buffer
    {
      buffer.Length == BUFFER_SIZE && bufferCount < BUFFER_SIZE
    }

    ghost function State(): Sketch
      requires bufferCount <= buffer.Length
      reads this, buffer
    {
      Sketch(count, sample, buffer[..bufferCount])
    }

    constructor (targets: seq<Target>)
      ensures Valid() && fresh(buffer) && quantiles == targets
      ensures State() == EMPTY
    {
      quantiles := targets;
      count := 0;
      sample := [];
      buffer := new real[BUFFER_SIZE](_ => 0.0);
      bufferCount := 0;
    }

    method Insert(value: real)
      requires Valid()
      modifies this, buffer
      ensures Valid()
      ensures State() == CkmsSketch.Insert(quantiles, old(State()), value)
    {
      buffer[bufferCount] := value;
      bufferCount := bufferCount + 1;
      assert State() == old(State().(pending := State().pending + [value]));

      if bufferCount == buffer.Length {
        FlushAndCompress();
      }
    }

    method Get(q: real) returns (answer: Option<real>)
      requires Valid()
      modifies this, buffer
      ensures Valid()
      ensures (State(), answer) == CkmsSketch.Get(quantiles, old(State()), q)
    {
      FlushAndCompress();
      answer := Query(q);
    }

    /** insertBatch followed by compress, as insert and get call them. */
    method FlushAndCompress()
      requires buffer.Length == BUFFER_SIZE && bufferCount <= BUFFER_SIZE
      modifies this, buffer
      ensures Valid()
      ensures State() == Settle(quantiles, old(State()))
    {
      var _ := InsertBatch();
      CompressSample();
    }

    /** The rest of get: a scan for the last item that stays within the bound. */
    method Query(q: real) returns (answer: Option<real>)
      ensures answer == Answer(quantiles, Sketch(count, sample, []), q)
    {
      if sample == [] {
        return None;
      }

      var rankMin := 0;
      var desired := Desired(q, count);
      var e := AllowableErrorAt(desired);
      var bound := desired as real + e / 2.0;

      ghost var goal := AnswerIndex(quantiles, Sketch(count, sample, []), q);
      assert bound == Bound(quantiles, |sample|, desired);

      var it := 0;
      var prev := 0;
      var cur := it;
      it := it + 1;

      while it != |sample|
        invariant it == cur + 1 <= |sample|
        invariant Scan(sample, cur, rankMin, bound) == goal
        decreases |sample| - it
      {
        prev := cur;
        cur := it;
        it := it + 1;

        rankMin := rankMin + sample[prev].g;

        if (rankMin + sample[cur].g + sample[cur].delta) as real > bound {
          return Some(sample[prev].value);
        }
      }

      return Some(sample[|sample| - 1].value);
    }

    method Reset()
      requires Valid()
      modifies this
      ensures Valid()
      ensures State() == EMPTY
    {
      count := 0;
      sample := [];
      bufferCount := 0;
    }

    method AllowableErrorAt(rank: int) returns (minError: real)
      ensures minError == AllowableError(quantiles, |sample|, rank)
    {
      var size := |sample|;
      minError := (size + 1) as real;

      for i := 0 to |quantiles|
        invariant minError == AllowableError(quantiles[..i], size, rank)
      {
        var error := Contribution(quantiles[i], size, rank);
        if error.Some? && error.value < minError {
          minError := error.value;
        }
        assert quantiles[..i + 1][..i] == quantiles[..i];
      }
      assert quantiles[..|quantiles|] == quantiles;
    }

    /** The call of std::sort. */
    method SortBuffer()
      requires bufferCount <= buffer.Length
      modifies buffer
      ensures buffer[..bufferCount] == Sort(old(buffer[..bufferCount]))
    {
      var sorted := Sort(buffer[..bufferCount]);
      forall i | 0 <= i < bufferCount {
        buffer[i] := sorted[i];
      }
    }

    /** Returns false when there was nothing to merge. */
    method InsertBatch() returns (merged: bool)
      requires buffer.Length == BUFFER_SIZE && bufferCount <= BUFFER_SIZE
      modifies this, buffer
      ensures Valid()
      ensures merged == (old(bufferCount) != 0)
      ensures State() == Flush(quantiles, old(State()))
    {
      if bufferCount == 0 {
        return false;
      }

      SortBuffer();

      var start := 0;
      if sample == [] {
        sample := [Item(buffer[0], 1, 0)];
        start := start + 1;
        count := count + 1;
      }
      MergeFrom(start);
      assert buffer[start..bufferCount] == buffer[..bufferCount][start..];

      bufferCount := 0;
      return true;
    }

    /** insertBatch's loop over the sorted buffer. */
    method MergeFrom(start: nat)
      requires start <= bufferCount <= buffer.Length && sample != []
      modifies this`sample, this`count
      ensures sample == MergePass(quantiles, old(sample), 0, buffer[start..bufferCount])
      ensures count == old(count) + bufferCount - start
    {
      ghost var goal := MergePass(quantiles, sample, 0, buffer[start..bufferCount]);
      var item: nat := 0;
      for i := start to bufferCount
        invariant item < |sample|
        invariant count == old(count) + i - start
        invariant MergePass(quantiles, sample, item, buffer[i..bufferCount]) == goal
      {
        assert buffer[i..bufferCount][1..] == buffer[i + 1..bufferCount];
        item := MergeValue(buffer[i], item);
      }
    }

    /**
     The body of insertBatch's loop: resumes the search at the item the last value became
     and returns the index of the new one. At the loop head idx is item + 1.
     */
    method MergeValue(v: real, cursor: nat) returns (item: nat)
      requires cursor < |sample|
      modifies this`sample, this`count
      ensures item == Place(old(sample), cursor, v)
      ensures sample == InsertItem(old(sample), item, Item(v, 1, DeltaAt(quantiles, |old(sample)|, item)))
      ensures count == old(count) + 1
      ensures IsPlace(old(sample), cursor, v, item)
      ensures |sample| == |old(sample)| + 1 && NewItem(quantiles, |old(sample)|, item, sample[item], v)
    {
      ghost var before := sample;
      item := cursor;
      var idx := item + 1;

      while idx < |sample| && sample[item].value < v
        invariant idx == item + 1 <= |sample|
        invariant Place(sample, item, v) == Place(sample, cursor, v)
      {
        item := idx;
        idx := idx + 1;
      }

      if sample[item].value > v {
        idx := idx - 1;
      }

      // idx is unsigned in the source, so idx - 1 is zero at idx == 1 only.
      var delta := 0;
      if !(idx == 1 || idx + 1 == |sample|) {
        var e := AllowableErrorAt(idx + 1);
        delta := e.Floor + 1;
      }

      sample := sample[..idx] + [Item(v, 1, delta)] + sample[idx..];
      count := count + 1;
      item := idx;
      PlaceExactly(before, cursor, v, item);
      DeltaExactly(quantiles, |before|, item, delta);
      hide IsPlace, IsDelta, Place, DeltaAt;
    }

    method CompressSample()
      modifies this`sample
      ensures sample == Compress(quantiles, old(sample))
    {
      if |sample| < 2 {
        return;
      }

      var idx := 0;
      var prev := 0;
      var next := idx;
      idx := idx + 1;

      while idx < |sample|
        invariant idx == next + 1
        invariant CompressFrom(quantiles, sample, next) == Compress(quantiles, old(sample))
        decreases |sample| - idx
      {
        prev := next;
        next := idx;
        idx := idx + 1;
        ghost var before := sample;

        var e := AllowableErrorAt(idx - 1);
        if (sample[prev].g + sample[next].g + sample[next].delta) as real <= e {
          sample := sample[next := sample[next].(g := sample[next].g + sample[prev].g)];
          sample := sample[..prev] + sample[prev + 1..];
          var folded := before[next].(g := before[prev].g + before[next].g);
          assert sample == before[..prev] + [folded] + before[next + 1..];
        }
      }
    }
  }
}
