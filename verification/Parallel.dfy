/** Evaluating contiguous chunks by separate workers and gathering in input order (execution/parallel.rs). */
module Parallel {
  import opened Prelude

  const BATCH_SIZE: nat := 1024

  function MapAll<T, R>(f: T -> R, s: seq<T>): (r: seq<R>)
    ensures |r| == |s|
  {
    seq(|s|, i requires 0 <= i < |s| => f(s[i]))
  }

  /** Results of all chunks, one after the other. */
  function Gather<R>(handles: seq<seq<R>>): seq<R> {
    if handles == [] then [] else Gather(handles[..|handles| - 1]) + handles[|handles| - 1]
  }

  lemma MapAllSplit<T, R>(f: T -> R, s: seq<T>, i: nat, j: nat)
    requires i <= j <= |s|
    ensures MapAll(f, s[..i]) + MapAll(f, s[i..j]) == MapAll(f, s[..j])
  {
    assert s[..j] == s[..i] + s[i..j];
  }

  lemma GatherPush<R>(handles: seq<seq<R>>, rows: seq<R>)
    ensures Gather(handles + [rows]) == Gather(handles) + rows
  {
    assert (handles + [rows])[..|handles|] == handles;
  }

  lemma GatherSlice<R>(handles: seq<seq<R>>, i: nat)
    requires i < |handles|
    ensures Gather(handles[..i + 1]) == Gather(handles[..i]) + handles[i]
  {
    assert handles[..i + 1] == handles[..i] + [handles[i]];
    GatherPush(handles[..i], handles[i]);
  }

  /** Division rounding up, as `div_ceil`. */
  function DivCeil(n: nat, d: nat): (q: nat)
    requires n >= 1 && d >= 1
    ensures q >= 1
  {
    (n - 1) / d + 1
  }

  /** What joining a worker yields: the rows of its chunk, unless it panicked. */
  datatype Joined<+R> = Finished(rows: seq<R>) | Panicked

  /**
   * The output is the input mapped in order, for every number of workers. With more than one it may fail instead,
   * when a worker cannot be started or panics; then nothing is handed out.
   */
  method OrderedMap<T, R>(input: seq<T>, requested: nat, evaluate: T -> R) returns (r: Result<seq<R>, string>)
    ensures r.Ok? ==> r.value == MapAll(evaluate, input)
    ensures r.Err? ==> requested > 1 && |input| > 1
  {
    hide Gather, DivCeil;
    if input == [] {
      return Ok([]);
    }
    var atLeastOne := if requested < 1 then 1 else requested;
    var workers := if atLeastOne < |input| then atLeastOne else |input|;
    if workers == 1 {
      return Ok(MapAll(evaluate, input));
    }
    hide MapAll;
    var handles, failure, chunks := StartWorkers(input, DivCeil(|input|, workers), evaluate);
    var output := [];
    GatherNone<R>();
    assert chunks[..0] == [];
    ghost var allStarted := failure == None;
    for i := 0 to |handles|
      invariant failure == None ==> allStarted && output == Gather(chunks[..i])
    {
      GatherSlice(chunks, i);
      match handles[i]
      case Finished(rows) => output := output + rows;
      case Panicked => failure := Some("Execution worker panicked");
    }
    assert chunks[..|chunks|] == chunks;
    r := match failure case Some(error) => Err(error) case None => Ok(output);
  }

  lemma GatherNone<R>()
    ensures Gather<R>([]) == []
  {
  }

  lemma MapAllNone<T, R>(f: T -> R)
    ensures MapAll(f, []) == []
  {
  }

  /** One worker per chunk, until one cannot be started; `chunks` are their results should none panic. */
  method StartWorkers<T, R>(input: seq<T>, chunkSize: nat, evaluate: T -> R)
      returns (handles: seq<Joined<R>>, failure: Option<string>, ghost chunks: seq<seq<R>>)
    requires chunkSize >= 1
    ensures |handles| == |chunks|
    ensures forall i :: 0 <= i < |handles| && handles[i].Finished? ==> handles[i].rows == chunks[i]
    ensures failure == None ==> Gather(chunks) == MapAll(evaluate, input)
  {
    hide Gather, MapAll;
    handles, failure, chunks := [], None, [];
    var start := 0;
    GatherNone<R>();
    MapAllNone(evaluate);
    assert input[..0] == [];
    while start < |input|
      invariant 0 <= start <= |input| && failure == None
      invariant |handles| == |chunks|
      invariant forall i :: 0 <= i < |handles| && handles[i].Finished? ==> handles[i].rows == chunks[i]
      invariant Gather(chunks) == MapAll(evaluate, input[..start])
    {
      var end := if start + chunkSize < |input| then start + chunkSize else |input|;
      var chunk := input[start..end];
      var started := Chance();
      if !started {
        failure := Some("Cannot start execution worker");
        return;
      }
      MapAllSplit(evaluate, input, start, end);
      GatherPush(chunks, MapAll(evaluate, chunk));
      var panics := Chance();
      handles := handles + [if panics then Panicked else Finished(MapAll(evaluate, chunk))];
      chunks := chunks + [MapAll(evaluate, chunk)];
      start := end;
    }
    assert input[..|input|] == input;
  }
}
