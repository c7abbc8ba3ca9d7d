/**
 * What the recognition task's result handler does with each engine callback:
 * every result is forwarded to the debouncer whatever its final flag says,
 * and an error or a final flag releases the controller's references to the
 * current request and task.
 */
module Recognition {
  import opened Wrappers
  import opened Transcription
  import opened Debouncing
  import opened Cache

  /** An SFSpeechURLRecognitionRequest: the audio file and whether partial results are reported. */
  datatype Request = Request(url: Path, shouldReportPartialResults: bool)

  datatype EngineError = EngineError(code: int)

  /** One invocation of the result handler, at time `at`, with an optional result and an optional error. */
  datatype Callback = Callback(at: real, result: Option<RecognitionResult>, error: Option<EngineError>)

  /** The handler drops its references: an error arrived, or the result says it is final. */
  predicate Releases(c: Callback) {
    c.error.Some? || (c.result.Some? && c.result.value.isFinal)
  }

  /** The controller's `recognitionRequest` and `recognitionTask` references. */
  datatype Refs<K> = Refs(request: Option<Request>, task: Option<K>)

  function AfterCallback<K>(refs: Refs<K>, c: Callback): (r: Refs<K>) {
    if Releases(c) then Refs(None, None) else refs
  }

  function AfterCallbacks<K>(refs: Refs<K>, cbs: seq<Callback>): (r: Refs<K>)
    decreases |cbs|
  {
    if cbs == [] then refs else AfterCallbacks(AfterCallback(refs, cbs[0]), cbs[1..])
  }

  /** The debouncer calls the handler makes for `cbs`: one per callback that carries a result. */
  function Forward(cbs: seq<Callback>): (es: seq<Event<Transcription>>)
    decreases |cbs|
  {
    if cbs == [] then []
    else (if cbs[0].result.Some? then [Notify(cbs[0].result.value.bestTranscription, cbs[0].at)] else [])
         + Forward(cbs[1..])
  }

  /** The last callback in `cbs` that carries a result. */
  function LastResult(cbs: seq<Callback>): (r: Option<Callback>)
    ensures r.Some? ==> r.value.result.Some? && r.value in cbs
    ensures r.None? <==> forall i | 0 <= i < |cbs| :: cbs[i].result.None?
    ensures r.Some? ==> exists i | 0 <= i < |cbs| ::
              cbs[i] == r.value && forall j | i < j < |cbs| :: cbs[j].result.None?
    decreases |cbs|
  {
    if cbs == [] then None
    else
      match LastResult(cbs[1..])
      case Some(c) =>
        var i :| 0 <= i < |cbs[1..]| && cbs[1..][i] == c && forall j | i < j < |cbs[1..]| :: cbs[1..][j].result.None?;
        assert cbs[i + 1] == c && forall j | i + 1 < j < |cbs| :: cbs[j] == cbs[1..][j - 1];
        Some(c)
      case None =>
        assert forall j | 0 < j < |cbs| :: cbs[j] == cbs[1..][j - 1];
        if cbs[0].result.Some? then Some(cbs[0]) else None
  }

  /**
   * The references are released exactly when some callback reports an error
   * or a final result; nothing else in the handler touches them.
   */
  lemma {:induction false} ReleasedOnlyBySignal<K>(refs: Refs<K>, cbs: seq<Callback>)
    ensures AfterCallbacks(refs, cbs)
         == if exists i | 0 <= i < |cbs| :: Releases(cbs[i]) then Refs(None, None) else refs
    decreases |cbs|
  {
    if cbs != [] {
      var next := AfterCallback(refs, cbs[0]);
      ReleasedOnlyBySignal(next, cbs[1..]);
      assert forall i | 0 <= i < |cbs[1..]| :: cbs[1..][i] == cbs[i + 1];
      if !Releases(cbs[0]) {
        assert (exists i | 0 <= i < |cbs| :: Releases(cbs[i]))
           <==> (exists i | 0 <= i < |cbs[1..]| :: Releases(cbs[1..][i]));
      }
    }
  }

  /**
   * Forwarding alone never fires the callback; afterwards the debouncer holds
   * the last result's transcription, whatever the final flags said, with its
   * timer due one interval after that callback.
   */
  lemma {:induction false} LastResultWins(s: DebounceState<Transcription>, cbs: seq<Callback>, delay: real)
    ensures Run(s, Forward(cbs), delay).fired == s.fired
    ensures LastResult(cbs).Some? ==>
              var c := LastResult(cbs).value;
              Run(s, Forward(cbs), delay)
              == DebounceState(c.result.value.bestTranscription, Some(c.at + TimerInterval(delay)), s.fired)
    ensures LastResult(cbs).None? ==> Run(s, Forward(cbs), delay) == s
    decreases |cbs|
  {
    if cbs != [] {
      var head := if cbs[0].result.Some? then [Notify(cbs[0].result.value.bestTranscription, cbs[0].at)] else [];
      var s1 := Run(s, head, delay);
      assert Forward(cbs) == head + Forward(cbs[1..]);
      assert s1.fired == s.fired by {
        if cbs[0].result.Some? {
          assert head[1..] == [];
          assert Run(s, head, delay) == Run(Step(s, head[0], delay), [], delay);
        } else {
          assert head == [];
        }
      }
      RunAppend(s, head, Forward(cbs[1..]), delay);
      LastResultWins(s1, cbs[1..], delay);
      if LastResult(cbs[1..]).None? {
        assert LastResult(cbs) == (if cbs[0].result.Some? then Some(cbs[0]) else None);
      } else {
        assert LastResult(cbs) == LastResult(cbs[1..]);
      }
    }
  }

  /**
   * A result flagged final followed by a later result: the later one is what
   * the debouncer will deliver.
   */
  lemma LaterResultAfterFinalWins(s: DebounceState<Transcription>, first: Callback, second: Callback, delay: real)
    requires first.result.Some? && first.result.value.isFinal
    requires second.result.Some?
    ensures Run(s, Forward([first, second]), delay).value == second.result.value.bestTranscription
  {
    LastResultWins(s, [first, second], delay);
    assert LastResult([first, second]) == Some(second) by {
      assert [first, second][1..] == [second];
      assert LastResult([second]) == Some(second) by {
        assert [second][1..] == [];
      }
    }
  }
}
