/**
 * The loop both `load` generators of data_generator.py share: for every chunk of
 * the shuffled manifest, read the two samples of each row in row order, append
 * them to two lists, and yield the two lists as one batch.
 *
 * A Python generator yields batches until something raises; the model returns the
 * batches yielded so far together with the error that ended the generator, if any.
 */
module Loading {
  import opened Wrappers
  import opened Batching

  datatype LoadError =
    | ZeroBatchSize          // `range(0, n, 0)` raises ValueError before any batch
    | MissingFile(path: string)  // opening a sample file that does not exist

  /**
   * How a row id becomes the two samples of a pair: the two paths built from the
   * id, and the read of a path (None when there is no such file).
   */
  datatype SampleReader<A> = SampleReader(firstPath: int -> string, secondPath: int -> string, read: string -> Option<A>)
  {
    predicate Readable(id: int)
    {
      read(firstPath(id)).Some? && read(secondPath(id)).Some?
    }
  }

  /** One yielded batch: the two per-sample lists. */
  datatype Pair<A> = Pair(first: seq<A>, second: seq<A>)

  /** The batches yielded, in order, and the error that ended the generator early, if any. */
  datatype Outcome<A> = Outcome(batches: seq<Pair<A>>, error: Option<LoadError>)

  /**
   * The path whose read fails first when the rows are read in order, first
   * sample before second sample.
   */
  function FirstMissing<A>(src: SampleReader<A>, ids: seq<int>): Option<string>
  {
    if ids == [] then None
    else if src.read(src.firstPath(ids[0])).None? then Some(src.firstPath(ids[0]))
    else if src.read(src.secondPath(ids[0])).None? then Some(src.secondPath(ids[0]))
    else FirstMissing(src, ids[1..])
  }

  /**
   * FirstMissing finds nothing exactly when every row is readable; otherwise it
   * names the failing path of the first unreadable row, the first sample's path
   * when that read fails and the second's otherwise.
   */
  lemma {:induction false} FirstMissingSpec<A>(src: SampleReader<A>, ids: seq<int>)
    ensures FirstMissing(src, ids).None? <==> forall i :: 0 <= i < |ids| ==> src.Readable(ids[i])
    ensures FirstMissing(src, ids).Some? ==> exists j :: (0 <= j < |ids| && !src.Readable(ids[j]) &&
      (forall i :: 0 <= i < j ==> src.Readable(ids[i])) &&
      FirstMissing(src, ids).value ==
        (if src.read(src.firstPath(ids[j])).None? then src.firstPath(ids[j]) else src.secondPath(ids[j])))
  {
    if ids != [] && src.Readable(ids[0]) {
      var rest := ids[1..];
      FirstMissingSpec(src, rest);
      assert forall i :: 1 <= i < |ids| ==> ids[i] == rest[i - 1];
      if FirstMissing(src, rest).Some? {
        var j :| 0 <= j < |rest| && !src.Readable(rest[j]) &&
          (forall i :: 0 <= i < j ==> src.Readable(rest[i])) &&
          FirstMissing(src, rest).value ==
            (if src.read(src.firstPath(rest[j])).None? then src.firstPath(rest[j]) else src.secondPath(rest[j]));
        assert ids[j + 1] == rest[j];
      }
    }
  }

  /**
   * A batch pairs up with a chunk: both lists have the chunk's length, and
   * their i-th entries are the two samples read for the chunk's i-th row.
   */
  ghost predicate PairOf<A>(src: SampleReader<A>, pair: Pair<A>, chunk: seq<int>)
  {
    |pair.first| == |chunk| && |pair.second| == |chunk| &&
    forall i :: 0 <= i < |chunk| ==>
      src.read(src.firstPath(chunk[i])) == Some(pair.first[i]) &&
      src.read(src.secondPath(chunk[i])) == Some(pair.second[i])
  }

  function Firsts<A>(batches: seq<Pair<A>>): (r: seq<seq<A>>)
    ensures |r| == |batches| && forall k :: 0 <= k < |r| ==> r[k] == batches[k].first
  {
    seq(|batches|, k requires 0 <= k < |batches| => batches[k].first)
  }

  function Seconds<A>(batches: seq<Pair<A>>): (r: seq<seq<A>>)
    ensures |r| == |batches| && forall k :: 0 <= k < |r| ==> r[k] == batches[k].second
  {
    seq(|batches|, k requires 0 <= k < |batches| => batches[k].second)
  }

  /**
   * When every chunk has been paired, the first samples of all batches, laid end
   * to end, follow the rows of all chunks one for one, and so do the second samples.
   */
  lemma {:induction false} SamplesFollowRows<A>(src: SampleReader<A>, batches: seq<Pair<A>>, chunks: seq<seq<int>>)
    requires |batches| == |chunks|
    requires forall k :: 0 <= k < |chunks| ==> PairOf(src, batches[k], chunks[k])
    ensures |Flatten(Firsts(batches))| == |Flatten(chunks)| == |Flatten(Seconds(batches))|
    ensures forall j :: 0 <= j < |Flatten(chunks)| ==>
      src.read(src.firstPath(Flatten(chunks)[j])) == Some(Flatten(Firsts(batches))[j]) &&
      src.read(src.secondPath(Flatten(chunks)[j])) == Some(Flatten(Seconds(batches))[j])
  {
    if chunks != [] {
      SamplesFollowRows(src, batches[1..], chunks[1..]);
      assert Firsts(batches)[1..] == Firsts(batches[1..]);
      assert Seconds(batches)[1..] == Seconds(batches[1..]);
      var c, f, s := chunks[0], batches[0].first, batches[0].second;
      assert PairOf(src, batches[0], c);
      var fc, ff, fs := Flatten(chunks[1..]), Flatten(Firsts(batches[1..])), Flatten(Seconds(batches[1..]));
      assert Flatten(chunks) == c + fc;
      assert Flatten(Firsts(batches)) == f + ff;
      assert Flatten(Seconds(batches)) == s + fs;
      forall j | 0 <= j < |c + fc|
        ensures src.read(src.firstPath((c + fc)[j])) == Some((f + ff)[j])
        ensures src.read(src.secondPath((c + fc)[j])) == Some((s + fs)[j])
      {
        if j >= |c| {
          assert (c + fc)[j] == fc[j - |c|];
          assert (f + ff)[j] == ff[j - |c|];
          assert (s + fs)[j] == fs[j - |c|];
        }
      }
    }
  }

  /**
   * The inner loop of `load`: read the rows of one chunk in order, appending each
   * row's two samples to two lists, until a read fails.
   */
  method ReadChunk<A>(chunk: seq<int>, src: SampleReader<A>) returns (pair: Pair<A>, missing: Option<string>)
    ensures missing == FirstMissing(src, chunk)
    ensures missing.None? ==> PairOf(src, pair, chunk)
  {
    var firsts: seq<A> := [];
    var seconds: seq<A> := [];
    var i := 0;
    while i < |chunk|
      invariant 0 <= i <= |chunk| && |firsts| == i && |seconds| == i
      invariant forall j :: 0 <= j < i ==>
        src.read(src.firstPath(chunk[j])) == Some(firsts[j]) &&
        src.read(src.secondPath(chunk[j])) == Some(seconds[j])
      invariant FirstMissing(src, chunk) == FirstMissing(src, chunk[i..])
    {
      var id := chunk[i];
      assert chunk[i..][0] == id && chunk[i..][1..] == chunk[i + 1..];
      var a := src.read(src.firstPath(id));
      if a.None? {
        return Pair(firsts, seconds), Some(src.firstPath(id));
      }
      var b := src.read(src.secondPath(id));
      if b.None? {
        return Pair(firsts, seconds), Some(src.secondPath(id));
      }
      firsts := firsts + [a.value];
      seconds := seconds + [b.value];
      i := i + 1;
    }
    pair, missing := Pair(firsts, seconds), None;
  }

  /**
   * The batches of `load` for an already shuffled manifest: the chunks of
   * `range(0, n, batch)`, each turned into a pair by reading its rows in order.
   * The first missing file stops the generator; the batches before it are yielded.
   */
  method LoadPairs<A>(shuffled: seq<int>, batch: int, src: SampleReader<A>) returns (out: Outcome<A>)
    ensures batch == 0 ==> out == Outcome([], Some(ZeroBatchSize))
    ensures batch < 0 ==> out == Outcome([], None)
    ensures batch > 0 ==> |out.batches| <= CeilDiv(|shuffled|, batch)
    ensures batch > 0 ==> forall k :: 0 <= k < |out.batches| ==>
      PairOf(src, out.batches[k], Chunks(shuffled, batch).value[k])
    ensures batch > 0 && out.error.None? ==>
      |out.batches| == CeilDiv(|shuffled|, batch) &&
      |Flatten(Firsts(out.batches))| == |shuffled| == |Flatten(Seconds(out.batches))| &&
      forall j :: 0 <= j < |shuffled| ==>
        src.read(src.firstPath(shuffled[j])) == Some(Flatten(Firsts(out.batches))[j]) &&
        src.read(src.secondPath(shuffled[j])) == Some(Flatten(Seconds(out.batches))[j])
    ensures batch > 0 && out.error.Some? ==>
      |out.batches| < CeilDiv(|shuffled|, batch) &&
      FirstMissing(src, Chunks(shuffled, batch).value[|out.batches|]).Some? &&
      out.error == Some(MissingFile(FirstMissing(src, Chunks(shuffled, batch).value[|out.batches|]).value))
    ensures batch > 0 ==> (out.error.None? <==> forall j :: 0 <= j < |shuffled| ==> src.Readable(shuffled[j]))
  {
    var chunked := Chunks(shuffled, batch);
    if chunked.None? {
      return Outcome([], Some(ZeroBatchSize));
    }
    var chunks := chunked.value;
    var batches: seq<Pair<A>> := [];
    var k := 0;
    while k < |chunks|
      invariant 0 <= k <= |chunks| && |batches| == k
      invariant forall m :: 0 <= m < k ==> PairOf(src, batches[m], chunks[m])
    {
      var pair, missing := ReadChunk(chunks[k], src);
      if missing.Some? {
        out := Outcome(batches, Some(MissingFile(missing.value)));
        if batch > 0 {
          StoppedLoad(src, shuffled, batch, chunks, k);
        }
        return;
      }
      batches := batches + [pair];
      k := k + 1;
    }
    out := Outcome(batches, None);
    if batch > 0 {
      CompletedLoad(src, shuffled, batch, chunks, batches);
    }
  }

  /** A load stopped in chunk k: fewer than ceil(n / b) batches, and some row cannot be read. */
  lemma StoppedLoad<A>(src: SampleReader<A>, shuffled: seq<int>, batch: int, chunks: seq<seq<int>>, k: nat)
    requires batch > 0 && chunks == Chunks(shuffled, batch).value
    requires k < |chunks| && FirstMissing(src, chunks[k]).Some?
    ensures k < CeilDiv(|shuffled|, batch)
    ensures !forall j :: 0 <= j < |shuffled| ==> src.Readable(shuffled[j])
  {
    Partition(shuffled, batch);
    FirstMissingSpec(src, chunks[k]);
    var i :| 0 <= i < |chunks[k]| && !src.Readable(chunks[k][i]);
    FlattenContains(chunks, k, i);
  }

  /** A load that paired every chunk delivered every row of the shuffled manifest, in order. */
  lemma CompletedLoad<A>(src: SampleReader<A>, shuffled: seq<int>, batch: int, chunks: seq<seq<int>>, batches: seq<Pair<A>>)
    requires batch > 0 && chunks == Chunks(shuffled, batch).value
    requires |batches| == |chunks|
    requires forall k :: 0 <= k < |chunks| ==> PairOf(src, batches[k], chunks[k])
    ensures |batches| == CeilDiv(|shuffled|, batch)
    ensures |Flatten(Firsts(batches))| == |shuffled| == |Flatten(Seconds(batches))|
    ensures forall j :: 0 <= j < |shuffled| ==>
      src.read(src.firstPath(shuffled[j])) == Some(Flatten(Firsts(batches))[j]) &&
      src.read(src.secondPath(shuffled[j])) == Some(Flatten(Seconds(batches))[j])
    ensures forall j :: 0 <= j < |shuffled| ==> src.Readable(shuffled[j])
  {
    Partition(shuffled, batch);
    SamplesFollowRows(src, batches, chunks);
  }

  /** Two orderings of the same rows are readable alike. */
  lemma ReadableSameRows<A>(src: SampleReader<A>, s: seq<int>, t: seq<int>)
    requires multiset(s) == multiset(t)
    ensures (forall j :: 0 <= j < |s| ==> src.Readable(s[j])) <==> (forall j :: 0 <= j < |t| ==> src.Readable(t[j]))
  {
    if forall j :: 0 <= j < |s| ==> src.Readable(s[j]) {
      forall j | 0 <= j < |t| ensures src.Readable(t[j]) {
        assert t[j] in multiset(s);
      }
    }
    if forall j :: 0 <= j < |t| ==> src.Readable(t[j]) {
      forall j | 0 <= j < |s| ensures src.Readable(s[j]) {
        assert s[j] in multiset(t);
      }
    }
  }
}
