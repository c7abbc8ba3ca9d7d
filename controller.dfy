/**
 * The view controller's orchestration: `downloadFile` resolves a URL to a
 * cached file (downloading it on a miss), `startRecognize` replaces the
 * current recognition request and task, and the task's result handler feeds
 * the session's debouncer and drops the references on an error or a final
 * result. The file system and the network session are a `Device`.
 */
module Controller {
  import opened Wrappers
  import opened Md5Hex
  import opened Cache
  import opened Transcription
  import opened Debouncing
  import opened Recognition

  /** The quiet period after which a session's transcript is taken as final (seconds). */
  const FinishDelay: real := 5.0

  /** The shared file system (existing paths) and the URLs handed to the network session. */
  class Device {
    var files: set<Path>
    var fetches: seq<string>

    constructor (files: set<Path>)
      ensures this.files == files && fetches == []
    {
      this.files := files;
      fetches := [];
    }
  }

  /** A download in flight: its URL and the cache path its completion handler captured. */
  datatype Download = Download(url: string, saved: Path)

  /** How `downloadFile` returns: a force-unwrap trapped, a cache hit, or a download started. */
  datatype Lookup = Crash | Hit(path: Path) | Fetching(job: Download)

  /** What the network session hands the completion handler: no file, or a temporary file that can or cannot be moved. */
  datatype Delivery = NoFile | TempFile(movable: bool)

  /**
   * An SFSpeechRecognitionTask with its result handler's captured debouncer.
   */
  class RecognitionTask {
    const request: Request
    const finisher: Debouncer<Transcription>
    var cancelled: bool

    constructor (request: Request, finisher: Debouncer<Transcription>)
      ensures this.request == request && this.finisher == finisher && !cancelled
    {
      this.request := request;
      this.finisher := finisher;
      cancelled := false;
    }

    method Cancel()
      modifies this
      ensures cancelled
    {
      cancelled := true;
    }
  }

  class ViewController {
    const platform: Platform
    const device: Device
    var recognitionRequest: Option<Request>
    var recognitionTask: Option<RecognitionTask>

    constructor (platform: Platform, device: Device)
      ensures this.platform == platform && this.device == device
      ensures recognitionRequest.None? && recognitionTask.None?
    {
      this.platform := platform;
      this.device := device;
      recognitionRequest := None;
      recognitionTask := None;
    }

    /** The task object `startRecognize` may cancel. */
    ghost function LiveTask(): set<object>
      reads this
    {
      if recognitionTask.Some? then {recognitionTask.value} else {}
    }

    /**
     * `downloadFile(url:callback:)` up to the network request. A cache hit
     * returns the path for the callback at once and starts no download; a
     * miss starts one download whose completion handler has captured the
     * cache path. A missing documents directory or an unparsable URL trap.
     */
    method DownloadFile(url: string) returns (r: Lookup)
      modifies device
      ensures !CanResolve(platform, url) ==> r == Crash && unchanged(device)
      ensures CanResolve(platform, url) ==>
                var saved := CachePath(platform, url);
                if saved in old(device.files) then
                  r == Hit(saved) && unchanged(device)
                else
                  && r == Fetching(Download(url, saved))
                  && device.files == old(device.files)
                  && device.fetches == old(device.fetches) + [url]
    {
      var key := Md5(url, platform.ccMd5);
      if platform.documents.None? || !platform.parsesAsUrl(url) {
        return Crash;
      }
      var saved := SavedUnder(platform.documents.value, key, platform.pathExtension(url));
      if saved in device.files {
        return Hit(saved);
      }
      device.fetches := device.fetches + [url];
      return Fetching(Download(url, saved));
    }

    /**
     * The download's completion handler. Without a file it returns without
     * calling back. Otherwise it moves the file to the cache path (the move
     * fails when something is already there, or for reasons outside the
     * model) and calls back with the cache path whether or not the move worked.
     */
    method CompleteDownload(job: Download, delivered: Delivery) returns (callbackWith: Option<Path>)
      modifies device
      ensures delivered.NoFile? ==> callbackWith.None? && unchanged(device)
      ensures delivered.TempFile? ==> callbackWith == Some(job.saved) && device.fetches == old(device.fetches)
      ensures delivered.TempFile? ==>
                device.files == if delivered.movable && job.saved !in old(device.files)
                                then old(device.files) + {job.saved} else old(device.files)
      ensures delivered.TempFile? && delivered.movable ==> job.saved in device.files
    {
      if delivered.NoFile? {
        return None;
      }
      if delivered.movable && job.saved !in device.files {
        device.files := device.files + {job.saved};
      }
      callbackWith := Some(job.saved);
    }

    /**
     * `startRecognize(url:)`: cancel and forget the current task, install a
     * new request for `url` that reports partial results, create a fresh
     * debouncer with the finish delay, and make the new task current. The
     * previous task's debouncer is left as it was.
     */
    method StartRecognize(url: Path) returns (task: RecognitionTask)
      modifies this, LiveTask()
      ensures old(recognitionTask).Some? ==> old(recognitionTask).value.cancelled
      ensures recognitionRequest == Some(Request(url, true))
      ensures recognitionTask == Some(task)
      ensures fresh(task) && fresh(task.finisher) && !task.cancelled && task.request == Request(url, true)
      ensures task.finisher.delay == FinishDelay
      ensures task.finisher.timer.None? && task.finisher.fired == []
    {
      if recognitionTask.Some? {
        recognitionTask.value.Cancel();
      }
      recognitionTask := None;
      var request := Request(url, true);
      recognitionRequest := Some(request);
      var finishRecognize := new Debouncer<Transcription>(FinishDelay, Transcription("", []));
      task := new RecognitionTask(request, finishRecognize);
      recognitionTask := Some(task);
    }

    /**
     * The result handler of `task`, invoked by the engine with `cb`: a result
     * goes to the task's debouncer whatever its final flag; an error or a
     * final flag clears both references of the controller, whichever task
     * they point to.
     */
    method HandleUpdate(task: RecognitionTask, cb: Callback)
      modifies this, task.finisher
      ensures task.finisher.Snapshot() == Run(old(task.finisher.Snapshot()), Forward([cb]), task.finisher.delay)
      ensures cb.result.Some? ==> task.finisher.value == cb.result.value.bestTranscription
                                  && task.finisher.timer == Some(cb.at + TimerInterval(task.finisher.delay))
      ensures Refs(recognitionRequest, recognitionTask)
           == AfterCallback(Refs(old(recognitionRequest), old(recognitionTask)), cb)
    {
      var isFinal := false;
      if cb.result.Some? {
        isFinal := cb.result.value.isFinal;
        task.finisher.Call(cb.result.value.bestTranscription, cb.at);
      }
      if cb.error.Some? || isFinal {
        recognitionRequest := None;
        recognitionTask := None;
      }
      assert [cb][1..] == [];
    }
  }

  /**
   * Two requests for one URL with a successful download between them: the
   * second is a cache hit at the same path, and the network is asked at most once.
   */
  method ResolveTwice(vc: ViewController, url: string) returns (first: Lookup, second: Lookup)
    requires CanResolve(vc.platform, url)
    modifies vc.device
    ensures first == Hit(CachePath(vc.platform, url)) || first == Fetching(Download(url, CachePath(vc.platform, url)))
    ensures second == Hit(CachePath(vc.platform, url))
    ensures |vc.device.fetches| <= |old(vc.device.fetches)| + 1
  {
    first := vc.DownloadFile(url);
    if first.Fetching? {
      var callbackWith := vc.CompleteDownload(first.job, TempFile(true));
    }
    second := vc.DownloadFile(url);
  }

  /**
   * Two requests for one URL before either download completes: two downloads
   * run, both callbacks get the same cache path, and the file ends up there
   * once the first movable delivery is in place.
   */
  method ConcurrentResolve(vc: ViewController, url: string, d1: Delivery, d2: Delivery)
    returns (cb1: Option<Path>, cb2: Option<Path>)
    requires CanResolve(vc.platform, url)
    requires CachePath(vc.platform, url) !in vc.device.files
    requires d1.TempFile? && d2.TempFile?
    modifies vc.device
    ensures cb1 == cb2 == Some(CachePath(vc.platform, url))
    ensures vc.device.fetches == old(vc.device.fetches) + [url, url]
    ensures CachePath(vc.platform, url) in vc.device.files <==> d1.movable || d2.movable
  {
    var a := vc.DownloadFile(url);
    var b := vc.DownloadFile(url);
    cb1 := vc.CompleteDownload(a.job, d1);
    cb2 := vc.CompleteDownload(b.job, d2);
  }

  /**
   * A session superseded while its timer is pending: the new session cancels
   * the old task but not its debouncer, which still fires with the old
   * transcript once its deadline passes.
   */
  method SupersededTimerStillFires(vc: ViewController, first: Path, second: Path, r: RecognitionResult)
    returns (a: RecognitionTask, b: RecognitionTask)
    requires !r.isFinal
    modifies vc, vc.LiveTask()
    ensures a.cancelled && vc.recognitionTask == Some(b)
    ensures a.finisher.fired == [r.bestTranscription] && b.finisher.fired == []
  {
    a := vc.StartRecognize(first);
    vc.HandleUpdate(a, Callback(0.0, Some(r), None));
    b := vc.StartRecognize(second);
    a.finisher.Tick(FinishDelay);
    b.finisher.Tick(FinishDelay);
  }

  /**
   * A late error from a superseded task: its handler clears the controller's
   * references even though they now point to the newer task.
   */
  method StaleErrorClearsNewSession(vc: ViewController, first: Path, second: Path, e: EngineError)
    returns (a: RecognitionTask, b: RecognitionTask)
    modifies vc, vc.LiveTask()
    ensures a.cancelled && !b.cancelled
    ensures vc.recognitionRequest.None? && vc.recognitionTask.None?
  {
    a := vc.StartRecognize(first);
    b := vc.StartRecognize(second);
    vc.HandleUpdate(a, Callback(1.0, None, Some(e)));
  }
}
