# Speech recognizer orchestration, modelled in Dafny

This project models the logic inside `SpeechRecognizorTest/ViewController.swift` of a small iOS app. The app
downloads an audio file from a URL, caches it under an md5-derived name, and transcribes it with the Speech
framework. The engine's `isFinal` flag cannot be trusted, so a debouncer takes the transcript as final after
5 seconds with no new result. The model covers four parts:

- **`md5()`** (`md5_hex.dfy`, module `Md5Hex`): the loop that renders the 16-byte CC_MD5 digest as lowercase
  hexadecimal with `%02x`. It keeps the fixed-size result buffer as an `array`. It is proved to produce
  `HexEncode` of the digest, and `HexEncode` is proved to invert `HexDecode` in both directions.
- **The content cache** (`cache.dfy` for the path, and `ViewController.DownloadFile` / `CompleteDownload` in
  `controller.dfy`):
  - The cache path is `<documents>/<md5 key>.<path extension>`.
  - On a hit, the callback gets the path at once.
  - On a miss, one download is started. Its completion handler moves the file into place and calls back.
  - The file system is a `Device` holding a set of existing paths and a log of network fetches. The download's
    outcome is a parameter.
- **The `Debouncer`** (`debouncing.dfy`, module `Debouncing`):
  - a class whose fields are the stored value, the deadline of the one weak, non-repeating timer, and the log of
    values the callback received;
  - a state machine (`Step`/`Run` over `Notify`/`Elapse` events) that its methods are proved against;
  - lemmas about bursts of calls, quiet periods and which value is delivered.
- **Recognition-session bookkeeping** (`recognition.dfy` for the callback semantics; `ViewController.StartRecognize`
  / `HandleUpdate` in `controller.dfy`): the optional `recognitionRequest` / `recognitionTask` fields, the
  per-session debouncer, and the mapping of a transcription to `ResultFormat` (`transcription.dfy`).

Foreign services are parameters. The `Platform` datatype holds:

- CC_MD5, as a function from the string to 16 bytes;
- whether `URL(string:)` accepts a string;
- `URL.pathExtension`;
- the documents directory, which is `None` when FileManager throws.

Time is a logical clock in seconds (`real`). `Float` and `TimeInterval` values are carried as their bit patterns.

### Where the code departs from a clean design (the model follows the code)

- `Debouncer` has no cancel or reset. `startRecognize` creates a fresh debouncer and cancels only the old task. A
  superseded session's pending timer therefore still fires with that session's transcript
  (`SupersededTimerStillFires`).
- The result handler clears `self.recognitionRequest` / `self.recognitionTask` without checking which task it
  belongs to. A late error from a cancelled task clears the references of the newer session
  (`StaleErrorClearsNewSession`).
- Failure to locate the documents directory is only printed. The implicitly unwrapped URL is then used and traps,
  and so does an unparsable URL string. This is modelled as the `Crash` outcome, not as an error returned to the
  caller.
- A download that yields no file ends without calling back. A failed move is only printed, and the callback still
  gets the cache path.
- There is no de-duplication of in-flight downloads. Two requests for one uncached URL start two downloads. The
  second move fails because the file exists, and both callbacks get the same path (`ConcurrentResolve`).

## Model

| member | source | states |
|---|---|---|
| `Md5Hex.HexByte` | SpeechRecognizorTest/ViewController.swift:26 | `%02x` of a byte is two lowercase hex digits whose values, high nibble first, recombine to the byte |
| `Md5Hex.HexEncode` | SpeechRecognizorTest/ViewController.swift:24-27 | the rendering of n bytes is exactly 2n characters, all lowercase hex digits |
| `Md5Hex.HexEncodeAt` | SpeechRecognizorTest/ViewController.swift:25-26 | byte i is rendered at positions 2i and 2i+1, so bytes appear in digest order |
| `Md5Hex.DecodeEncode` | SpeechRecognizorTest/ViewController.swift:24-27 | decoding the rendering of any byte sequence gives that sequence back |
| `Md5Hex.EncodeDecode` | SpeechRecognizorTest/ViewController.swift:24-27 | every text the decoder accepts is the rendering of the bytes it decodes to (the other direction of the bijection) |
| `Md5Hex.DecodeInjective` | SpeechRecognizorTest/ViewController.swift:24-27 | two texts the decoder accepts and maps to the same bytes are the same text |
| `Md5Hex.EncodeInjective` | SpeechRecognizorTest/ViewController.swift:24-27 | equal renderings come from equal digests: the key is determined by the digest alone and distinguishes digests |
| `Md5Hex.Md5` | SpeechRecognizorTest/ViewController.swift:18-30 | the buffer-and-loop `md5()` returns the rendering of the CC_MD5 digest: 32 lowercase hex characters that decode back to the digest |
| `Cache.CachePath` | SpeechRecognizorTest/ViewController.swift:93-103 | the cache path is `<documents>/`, then the 32-character key that decodes to the URL string's digest, then `.`, then the URL's path extension; it depends on the URL string only |
| `Cache.DistinctDigestsDistinctPaths` | SpeechRecognizorTest/ViewController.swift:93-103 | URL strings with different digests never share a cache path |
| `Transcription.FinishCallback` | SpeechRecognizorTest/ViewController.swift:133-146 | one `CustomSegment` per transcription segment, same count and order, range, confidence, timestamp and duration copied unchanged; `result` is the formatted transcript |
| `Debouncing.TimerInterval` | SpeechRecognizorTest/ViewController.swift:201 | the timer waits `delay` when positive, otherwise Timer's minimum of 0.1 ms; always a positive wait |
| `Debouncing.Debouncer.constructor` | SpeechRecognizorTest/ViewController.swift:193-196 | a new debouncer keeps its delay, holds no timer and has not fired |
| `Debouncing.Debouncer.Call` | SpeechRecognizorTest/ViewController.swift:198-203 | after `call(v)` the stored value is v, the previous timer is gone and exactly one timer is pending, due one interval after now; the callback log is unchanged |
| `Debouncing.Debouncer.FireNow` | SpeechRecognizorTest/ViewController.swift:205-207 | `fireNow` hands the stored value to the callback and changes nothing else |
| `Debouncing.Debouncer.Tick` | SpeechRecognizorTest/ViewController.swift:190-202 | the run loop fires a due timer once and then the weak slot is empty; before the deadline nothing happens |
| `Debouncing.NoFireBeforeDeadline` | SpeechRecognizorTest/ViewController.swift:199-206 | while time advances without reaching the pending deadline the debouncer's state does not change |
| `Debouncing.NeverCalledNeverFires` | SpeechRecognizorTest/ViewController.swift:190-203 | without a call there is no timer, and the callback never fires however much time passes |
| `Debouncing.FiresOnceAfterQuiet` | SpeechRecognizorTest/ViewController.swift:190-206 | between calls the callback fires at most once, with the stored value, and exactly when the run loop reaches the deadline |
| `Debouncing.LastNotifiedIsLast` | SpeechRecognizorTest/ViewController.swift:198-202 | the value `LastNotified` reports is carried by a call after which only timer ticks occur, i.e. it really is the most recent call |
| `Debouncing.ValueIsLastNotified` | SpeechRecognizorTest/ViewController.swift:198-202 | after any sequence of calls and ticks the stored value is the latest call's value; a pending timer implies a call was made (or one was pending already) |
| `Debouncing.FiredValueIsLatest` | SpeechRecognizorTest/ViewController.swift:199-206 | whenever a tick fires the callback it delivers the latest call's value, never a superseded one, and never the placeholder of a debouncer that started idle |
| `Debouncing.BurstNeverFires` | SpeechRecognizorTest/ViewController.swift:198-202 | calls spaced less than the interval apart, with the run loop ticking in between, never fire; afterwards the last value is stored with one timer due one interval after the last call |
| `Debouncing.BurstFiresOnceWithLastValue` | SpeechRecognizorTest/ViewController.swift:198-206 | after such a burst the callback fires exactly once, with the last call's value, if and only if the run loop reaches one interval after the last call |
| `Debouncing.ScenarioTwoCalls` | SpeechRecognizorTest/ViewController.swift:198-206 | from any starting state, calls at 0 s and 1 s with a 5 s delay: nothing fired at 5 s, the second value alone at 6 s |
| `Recognition.LastResult` | SpeechRecognizorTest/ViewController.swift:169-173 | a callback of the sequence that carries a result and after which no callback carries one (the last such); absent exactly when no callback carries one |
| `Recognition.ReleasedOnlyBySignal` | SpeechRecognizorTest/ViewController.swift:167-179 | over any callback sequence both references end up nil if and only if some callback had an error or a final result; otherwise they are untouched |
| `Recognition.LastResultWins` | SpeechRecognizorTest/ViewController.swift:169-174 | forwarding callbacks never fires the debouncer by itself; afterwards it holds the last result's transcription whatever the final flags said, due one interval after that callback |
| `Recognition.LaterResultAfterFinalWins` | SpeechRecognizorTest/ViewController.swift:169-174 | a result flagged final followed by a later result: the later transcription is the one the debouncer holds |
| `Controller.RecognitionTask.Cancel` | SpeechRecognizorTest/ViewController.swift:125 | cancelling marks the task cancelled |
| `Controller.ViewController.constructor` | SpeechRecognizorTest/ViewController.swift:53-54 | a controller starts with neither a request nor a task |
| `Controller.ViewController.DownloadFile` | SpeechRecognizorTest/ViewController.swift:92-111 | a trap when the documents directory or the URL is missing; a hit returns the cache path with no download; a miss logs exactly one fetch and hands the cache path to the pending download; files unchanged |
| `Controller.ViewController.CompleteDownload` | SpeechRecognizorTest/ViewController.swift:111-120 | no file: no callback, nothing changes; a file: callback with the cache path whether or not the move worked, and the path exists afterwards when the move was possible |
| `Controller.ViewController.StartRecognize` | SpeechRecognizorTest/ViewController.swift:124-166 | the previous task is cancelled; the new request reports partial results for the URL; a fresh task with a fresh idle 5 s debouncer becomes current |
| `Controller.ViewController.HandleUpdate` | SpeechRecognizorTest/ViewController.swift:166-180 | a result is forwarded to the task's debouncer whatever its final flag; an error or a final result clears both references, anything else leaves them |
| `Controller.ResolveTwice` | SpeechRecognizorTest/ViewController.swift:105-119 | after a successful download and move, a second request for the same URL is a hit at the same path; at most one fetch in all |
| `Controller.ConcurrentResolve` | SpeechRecognizorTest/ViewController.swift:111-119 | two requests before either completes: two fetches, both callbacks get the same path, the file exists if either delivery could be moved |
| `Controller.SupersededTimerStillFires` | SpeechRecognizorTest/ViewController.swift:124-207 | a superseded session's task is cancelled but its debouncer still fires with its transcript; the new session's has not fired |
| `Controller.StaleErrorClearsNewSession` | SpeechRecognizorTest/ViewController.swift:124-179 | an error delivered to a superseded task's handler clears the references to the newer task |

## Left out

- The UIKit layer (outlets, `viewDidLoad`, `viewDidAppear`, `handleConfirmButtonTap`, the text views and the status label) and the authorization switch: presentation only.
- The CC_MD5 computation and the UTF-8 conversion before it: foreign code, modelled as the function `Platform.ccMd5` from the string to 16 bytes.
- `URL(string:)` parsing and `URL.pathExtension`: Foundation code, modelled as the functions `Platform.parsesAsUrl` and `Platform.pathExtension`.
- Cache.CachePath: always writes the dot before the extension; how `appendingPathExtension` treats an empty extension is not modelled.
- Creation of the documents directory (`create: true`) and the temporary file the download leaves behind: the file set holds only cache paths.
- `URLSession`, `FileManager` errors other than an existing destination, and the timer's run loop are replaced by the `Delivery` outcome, the `movable` flag and explicit `Tick` times. The queues they run on are not modelled: callbacks are processed one at a time.
- The callback passed to `downloadFile`: `DownloadFile` and `CompleteDownload` return the path it would receive instead of calling it.
- The `as!` downcast in `finishCallback`: the model's debouncer is typed `Debouncer<Transcription>`. The `0` placeholder value becomes an empty transcription, which `NeverCalledNeverFires` and `FiredValueIsLatest` show is never delivered.
- The `fatalError` guard after creating the request: the initializer cannot fail, so the guard never triggers.
- JSON pretty-printing of `ResultFormat`, the `print` diagnostics and the display of partial transcripts: output only.
- Arithmetic on `Float` confidences and `TimeInterval` values: they are carried unchanged as bit patterns.
- The engine's own scheduling of callbacks, including whether a cancelled task keeps calling back: `HandleUpdate` accepts a callback for any task.
