/**
 * One download attempt (class_process.py): a `Process` derives the file
 * name from its URL, asks for the bytes after the part already on disk,
 * classifies the reply, streams the chunks into the file while watching its
 * pause and cancel flags, and settles on exactly one outcome.
 *
 * The network, the disk and the callbacks are replaced by values: the reply
 * is a `Reply`, the file system a `Disk` map, and the callbacks a trace of
 * `Event`s. Requests made by other threads are an input schedule.
 */
module Transfer {

  newtype byte = x: int | 0 <= x < 256

  datatype Option<T> = None | Some(value: T)

  /** The file system as the run sees it: path to contents. */
  type Disk = map<string, seq<byte>>

  /** Pause and cancel requests made by other threads between two flag checks. */
  datatype Requests = Requests(pause: bool, cancel: bool)

  const NoRequests := Requests(false, false)

  /** The `content-length` header of the reply. */
  datatype Length =
    | Absent
    | Declared(value: int)
    | Unparsable(message: string)   // converting the header to an integer raises with this message

  /**
   * What `requests.get` gives back. `Raised` is a request that fails before a
   * status arrives (connection, DNS, timeout). A `Response` delivers `chunks`
   * and then either ends or, when `cutOff` is `Some`, raises on the fetch of
   * the next chunk.
   */
  datatype Reply =
    | Raised(message: string)
    | Response(status: int, length: Length, chunks: seq<seq<byte>>, cutOff: Option<string>)

  /** One callback invocation. `Progress` carries the pair whose quotient is the percentage. */
  datatype Event =
    | Status(text: string)
    | Progress(downloaded: int, total: int)
    | Finished(name: string, path: string, size: int)
    | Failed(message: string)
    | Paused
    | Cancelled
  {
    predicate IsTerminal() { Finished? || Failed? || Paused? || Cancelled? }
  }

  const RangeNotSatisfiable := 416
  const PartialContent := 206
  const Fallback := "Untitled"
  const DownloadingText := "Downloading..."

  // ---------------------------------------------------------------------------
  // File name and destination path
  // ---------------------------------------------------------------------------

  /**
   * `r` is the last piece of `url` split at every slash: a suffix of `url` without a
   * slash that is either all of `url` or comes right after a slash.
   */
  predicate IsLastSegment(url: string, r: string)
  {
    '/' !in r && |r| <= |url| && r == url[|url| - |r|..] &&
    (|r| < |url| ==> url[|url| - |r| - 1] == '/')
  }

  /** The last piece of `url` split at every slash, which is empty when `url` ends in a slash. */
  function LastSegment(url: string): (r: string)
    ensures IsLastSegment(url, r)
  {
    if url == [] then []
    else if url[|url| - 1] == '/' then []
    else
      var r' := LastSegment(url[..|url| - 1]);
      assert url[|url| - |r'| - 1..] == url[..|url| - 1][|url| - 1 - |r'|..] + [url[|url| - 1]];
      r' + [url[|url| - 1]]
  }

  /** The name the download is saved under: the last segment, or the fallback when that is empty. */
  function FileName(url: string): (name: string)
    ensures name != [] && '/' !in name
    ensures IsLastSegment(url, name) || (name == Fallback && IsLastSegment(url, []))
  {
    var last := LastSegment(url);
    if last == [] then Fallback else last
  }

  /**
   * `dir` joined with a `name` that holds no slash, as POSIX `os.path.join`
   * does: a separator goes between them unless `dir` is empty or ends in one.
   */
  function SavePath(dir: string, name: string): (path: string)
    ensures '/' !in name ==> LastSegment(path) == name
    ensures |path| >= |dir| && path[..|dir|] == dir
    ensures path == dir + name || path == dir + "/" + name
  {
    if dir == [] || dir[|dir| - 1] == '/' then
      LastSegmentAfterSlash(dir, name);
      dir + name
    else
      LastSegmentAfterSlash(dir + "/", name);
      dir + "/" + name
  }

  /** A slash-free name placed after a slash (or at the start) is the last segment. */
  lemma {:induction false} LastSegmentAfterSlash(prefix: string, name: string)
    requires prefix == [] || prefix[|prefix| - 1] == '/'
    ensures '/' !in name ==> LastSegment(prefix + name) == name
  {
    if '/' !in name {
      if name == [] {
        assert prefix + name == prefix;
      } else {
        var front := name[..|name| - 1];
        LastSegmentAfterSlash(prefix, front);
        assert (prefix + name)[..|prefix + name| - 1] == prefix + front;
        assert name == front + [name[|name| - 1]];
      }
    }
  }

  /** The size of the file at `path`, or 0 when there is no such file. */
  function ExistingSize(disk: Disk, path: string): nat
  {
    if path in disk then |disk[path]| else 0
  }

  // ---------------------------------------------------------------------------
  // The chunk loop as functions
  // ---------------------------------------------------------------------------

  /** The requests that arrived before the flag check of chunk `i`. */
  function Seen(arrivals: seq<Requests>, i: nat): Requests
  {
    if i < |arrivals| then arrivals[i] else NoRequests
  }

  /**
   * The index of the chunk whose flag check ends the loop, or `n` when no
   * check of the `n` chunks sees a request.
   */
  function BreakIndex(arrivals: seq<Requests>, n: nat): (k: nat)
    ensures k <= n
    ensures forall i :: 0 <= i < k ==> Seen(arrivals, i) == NoRequests
    ensures k < n ==> Seen(arrivals, k) != NoRequests
  {
    if n == 0 then 0
    else
      var k := BreakIndex(arrivals, n - 1);
      if k < n - 1 || Seen(arrivals, n - 1) != NoRequests then k else n
  }

  /** The bytes of the chunks one after another, as successive writes put them in the file. */
  function Concat(chunks: seq<seq<byte>>): seq<byte>
  {
    if chunks == [] then [] else Concat(chunks[..|chunks| - 1]) + chunks[|chunks| - 1]
  }

  /**
   * The progress events of writing `chunks` when `base` bytes count as already
   * downloaded: one per non-empty chunk, and none at all unless `total > 0`.
   */
  function ProgressTrace(chunks: seq<seq<byte>>, base: int, total: int): (t: seq<Event>)
    ensures total <= 0 ==> t == []
    ensures forall e :: e in t ==>
      e.Progress? && e.total == total && base < e.downloaded <= base + |Concat(chunks)|
  {
    if chunks == [] then []
    else
      ProgressTrace(chunks[..|chunks| - 1], base, total) +
      (if chunks[|chunks| - 1] != [] && total > 0 then [Progress(base + |Concat(chunks)|, total)] else [])
  }

  /** `BreakIndex` is the only index where the first request is seen. */
  lemma BreakIndexAt(arrivals: seq<Requests>, n: nat, k: nat)
    requires k <= n
    requires forall i :: 0 <= i < k ==> Seen(arrivals, i) == NoRequests
    requires k < n ==> Seen(arrivals, k) != NoRequests
    ensures BreakIndex(arrivals, n) == k
  {
  }

  /**
   * The state of the chunk loop after the first `k` chunks, when the file
   * held `start` and the count began at `base`: the file gained their bytes,
   * the count their length, and the trace their progress events.
   */
  predicate Consumed(chunks: seq<seq<byte>>, k: nat, base: int, total: int,
                     start: seq<byte>, file: seq<byte>, downloaded: int, progress: seq<Event>)
  {
    k <= |chunks| && file == start + Concat(chunks[..k]) &&
    downloaded == base + |Concat(chunks[..k])| && progress == ProgressTrace(chunks[..k], base, total)
  }

  /** Writing chunk `k` after the first `k`: the bytes, the count and the progress event it adds. */
  lemma ConsumedStep(chunks: seq<seq<byte>>, k: nat, base: int, total: int,
                     start: seq<byte>, file: seq<byte>, downloaded: int, progress: seq<Event>)
    requires k < |chunks| && Consumed(chunks, k, base, total, start, file, downloaded, progress)
    ensures var chunk := chunks[k];
      Consumed(chunks, k + 1, base, total, start, file + chunk, downloaded + |chunk|,
               progress + if chunk != [] && total > 0 then [Progress(downloaded + |chunk|, total)] else [])
  {
    assert chunks[..k + 1][..k] == chunks[..k];
    assert Concat(chunks[..k + 1]) == Concat(chunks[..k]) + chunks[k];
    assert file + chunks[k] == start + Concat(chunks[..k + 1]);
  }

  /** Progress events whose downloaded counts strictly increase. */
  predicate Increasing(t: seq<Event>)
  {
    forall a, b :: 0 <= a < b < |t| ==> t[a].Progress? && t[b].Progress? && t[a].downloaded < t[b].downloaded
  }

  /** Appending an event above every count so far keeps the counts increasing. */
  lemma IncreasingAppend(t: seq<Event>, bound: int, e: Event)
    requires Increasing(t) && forall x :: x in t ==> x.Progress? && x.downloaded <= bound
    requires e.Progress? && e.downloaded > bound
    ensures Increasing(t + [e])
  {
    var t2 := t + [e];
    forall a, b | 0 <= a < b < |t2| ensures t2[a].Progress? && t2[b].Progress? && t2[a].downloaded < t2[b].downloaded {
      if b == |t| {
        assert t2[a] == t[a] && t[a] in t;
      } else {
        assert t2[a] == t[a] && t2[b] == t[b];
      }
    }
  }

  /** Within one run the downloaded counts of the progress events strictly increase. */
  lemma {:induction false} ProgressIncreasing(chunks: seq<seq<byte>>, base: int, total: int)
    ensures Increasing(ProgressTrace(chunks, base, total))
  {
    if chunks != [] {
      var front := chunks[..|chunks| - 1];
      var last := chunks[|chunks| - 1];
      ProgressIncreasing(front, base, total);
      if last != [] && total > 0 {
        assert |Concat(chunks)| == |Concat(front)| + |last|;
        IncreasingAppend(ProgressTrace(front, base, total), base + |Concat(front)|,
                         Progress(base + |Concat(chunks)|, total));
      }
    }
  }

  /** An empty chunk adds no byte and no progress event. */
  lemma EmptyChunkSkipped(chunks: seq<seq<byte>>, base: int, total: int)
    ensures Concat(chunks + [[]]) == Concat(chunks)
    ensures ProgressTrace(chunks + [[]], base, total) == ProgressTrace(chunks, base, total)
  {
    assert (chunks + [[]])[..|chunks|] == chunks;
  }

  /** When some chunk carries bytes and the total is known, at least one progress event fires. */
  lemma {:induction false} ProgressReported(chunks: seq<seq<byte>>, base: int, total: int)
    requires total > 0 && Concat(chunks) != []
    ensures ProgressTrace(chunks, base, total) != []
  {
    var front := chunks[..|chunks| - 1];
    if chunks[|chunks| - 1] == [] {
      ProgressReported(front, base, total);
    }
  }

  // ---------------------------------------------------------------------------
  // One run as a function
  // ---------------------------------------------------------------------------

  /** The state a run leaves behind: the disk, the callbacks made, and the two request flags. */
  datatype Outcome = Outcome(disk: Disk, events: seq<Event>, stop: bool, cancel: bool)

  /** The declared content length as an integer, 0 when the header is absent. */
  function DeclaredLength(length: Length): int
  {
    if length.Declared? then length.value else 0
  }

  /**
   * The end of `start`, once the chunk loop is over. `failure` is the
   * exception that ended the loop, if any; otherwise the flags are those the
   * loop saw (`seen`) together with the requests that arrived after it
   * (`late`). Exactly one terminal event is added after `trace`, and the only
   * change to the disk is perhaps the removal of `path`.
   */
  function Settle(name: string, path: string, written: Disk, trace: seq<Event>, total: int,
                  failure: Option<string>, seen: Requests, late: Requests): (o: Outcome)
    ensures |o.events| == |trace| + 1 && o.events == trace + [o.events[|trace|]]
    ensures o.events[|trace|].IsTerminal()
    ensures o.disk == written || o.disk == written - {path}
  {
    if failure.Some? then
      Outcome(written, trace + [Failed(failure.value)], false, false)
    else
      var stop := seen.pause || late.pause;
      var cancel := seen.cancel || late.cancel;
      if cancel then Outcome(written - {path}, trace + [Cancelled], stop, cancel)
      else if stop then Outcome(written, trace + [Paused], stop, cancel)
      else Outcome(written, trace + [Finished(name, path, total)], stop, cancel)
  }

  /** The events before the terminal one: the status line, then progress only. */
  predicate StatusThenProgress(trace: seq<Event>)
  {
    trace != [] && trace[0] == Status(DownloadingText) &&
    forall i :: 1 <= i < |trace| ==> trace[i].Progress?
  }

  /** Status and progress events are not terminal, so only the last event of such a run is. */
  lemma OnlyLastTerminal(events: seq<Event>)
    requires events != [] && StatusThenProgress(events[..|events| - 1])
    ensures forall i :: 0 <= i < |events| - 1 ==> !events[i].IsTerminal()
  {
    forall i | 0 <= i < |events| - 1
      ensures !events[i].IsTerminal()
    {
      assert events[i] == events[..|events| - 1][i];
    }
  }

  /**
   * A reply other than 416 whose length parses: open `path` in append mode
   * (`resume`, status 206) or truncate mode (any other status), write the
   * chunks up to the first flag check that sees a request, and settle.
   */
  function Download(name: string, path: string, disk: Disk, resume: bool, declared: int,
                    chunks: seq<seq<byte>>, cutOff: Option<string>,
                    arrivals: seq<Requests>, late: Requests): (o: Outcome)
    ensures o.events != [] && StatusThenProgress(o.events[..|o.events| - 1])
    ensures o.events[|o.events| - 1].IsTerminal()
    ensures o.disk == disk - {path} || (path in o.disk && o.disk == disk[path := o.disk[path]])
  {
    var existing := ExistingSize(disk, path);
    var total := declared + existing;
    var base := if resume then existing else 0;
    var prior := if resume && path in disk then disk[path] else [];
    var k := BreakIndex(arrivals, |chunks|);
    var progress := ProgressTrace(chunks[..k], base, total);
    var trace := [Status(DownloadingText)] + progress;
    assert forall i :: 1 <= i < |trace| ==> trace[i] == progress[i - 1] && progress[i - 1] in progress;
    var written := disk[path := prior + Concat(chunks[..k])];
    assert written - {path} == disk - {path};
    assert written == disk[path := written[path]];
    Settle(name, path, written, trace, total,
           if k == |chunks| then cutOff else None,
           if k < |chunks| then Seen(arrivals, k) else NoRequests, late)
  }

  /**
   * What `Process.start` does for a process with this `url`, saving under
   * `saveDir`, given the disk, the reply, the requests that arrive before each
   * chunk's flag check and those that arrive before the outcome is settled.
   */
  function Run(url: string, saveDir: string, disk: Disk, reply: Reply,
               arrivals: seq<Requests>, late: Requests): (o: Outcome)
    ensures o.events != [] && o.events[|o.events| - 1].IsTerminal()
  {
    var name := FileName(url);
    var path := SavePath(saveDir, name);
    match reply
    case Raised(message) => Outcome(disk, [Failed(message)], false, false)
    case Response(status, length, chunks, cutOff) =>
      if status == RangeNotSatisfiable then
        Outcome(disk, [Finished(name, path, ExistingSize(disk, path))], false, false)
      else if length.Unparsable? then
        Outcome(disk, [Failed(length.message)], false, false)
      else
        Download(name, path, disk, status == PartialContent, DeclaredLength(length),
                 chunks, cutOff, arrivals, late)
  }

  // ---------------------------------------------------------------------------
  // Properties of a run
  // ---------------------------------------------------------------------------

  /** The bytes of the first `k` chunks are a prefix of the bytes of all of them. */
  lemma {:induction false} ConcatPrefix(chunks: seq<seq<byte>>, k: nat)
    requires k <= |chunks|
    ensures |Concat(chunks[..k])| <= |Concat(chunks)|
    ensures Concat(chunks[..k]) == Concat(chunks)[..|Concat(chunks[..k])|]
  {
    if k < |chunks| {
      var front := chunks[..|chunks| - 1];
      assert front[..k] == chunks[..k];
      ConcatPrefix(front, k);
    } else {
      assert chunks[..k] == chunks;
    }
  }

  /**
   * Settling keeps the file as written unless the run is cancelled, in
   * which case exactly the file at `path` is removed.
   */
  lemma SettleFile(name: string, path: string, written: Disk, trace: seq<Event>, total: int,
                   failure: Option<string>, seen: Requests, late: Requests)
    requires path in written
    ensures var o := Settle(name, path, written, trace, total, failure, seen, late);
      (path in o.disk <==> !o.cancel) &&
      (o.cancel ==> o.disk == written - {path}) &&
      (!o.cancel ==> o.disk == written)
  {
  }

  /**
   * Settling without a failure: cancel wins and removes the file; otherwise
   * a pause keeps the file; otherwise the run finishes with the total size.
   * A flag counts when the check that ended the loop saw it or it arrived
   * afterwards.
   */
  lemma SettlePrecedence(name: string, path: string, written: Disk, trace: seq<Event>, total: int,
                         seen: Requests, late: Requests)
    ensures var o := Settle(name, path, written, trace, total, None, seen, late);
      var last := o.events[|trace|];
      (o.cancel <==> seen.cancel || late.cancel) &&
      (o.stop <==> seen.pause || late.pause) &&
      (last == Cancelled <==> o.cancel) &&
      (last == Paused <==> o.stop && !o.cancel) &&
      (last.Finished? <==> !o.stop && !o.cancel) &&
      (last.Finished? ==> last == Finished(name, path, total))
  {
  }

  /**
   * Settling after a failure: one `Failed` event with the exception's text,
   * the file left exactly as written, and both flags as the run reset them.
   */
  lemma SettleFailure(name: string, path: string, written: Disk, trace: seq<Event>, total: int,
                      message: string, seen: Requests, late: Requests)
    ensures Settle(name, path, written, trace, total, Some(message), seen, late)
      == Outcome(written, trace + [Failed(message)], false, false)
  {
  }

  /**
   * `Download` hands `Settle` the disk as written, the status and progress
   * events, the total, the exception if the loop ran to its end, and the
   * flags seen; the caller names each of these values.
   */
  lemma DownloadSettles(name: string, path: string, disk: Disk, resume: bool, declared: int,
                        chunks: seq<seq<byte>>, cutOff: Option<string>,
                        arrivals: seq<Requests>, late: Requests,
                        k: nat, written: Disk, trace: seq<Event>, total: int,
                        failure: Option<string>, seen: Requests)
    requires k == BreakIndex(arrivals, |chunks|)
    requires total == declared + ExistingSize(disk, path)
    requires written == disk[path := (if resume && path in disk then disk[path] else []) + Concat(chunks[..k])]
    requires trace == [Status(DownloadingText)]
      + ProgressTrace(chunks[..k], if resume then ExistingSize(disk, path) else 0, total)
    requires failure == if k == |chunks| then cutOff else None
    requires seen == if k < |chunks| then Seen(arrivals, k) else NoRequests
    ensures Download(name, path, disk, resume, declared, chunks, cutOff, arrivals, late)
      == Settle(name, path, written, trace, total, failure, seen, late)
  {
  }

  /**
   * What a reply other than 416 leaves behind. Unless the run is cancelled
   * the file stays, holding the old contents (206) or nothing (any other
   * status) followed by the chunks before the first flag check that saw a
   * request. Between the status event and the terminal one come the
   * progress events of exactly those chunks, counted from the old size on
   * 206 and from 0 otherwise.
   */
  lemma AppendOrTruncate(name: string, path: string, disk: Disk, resume: bool, declared: int,
                         chunks: seq<seq<byte>>, cutOff: Option<string>,
                         arrivals: seq<Requests>, late: Requests)
    ensures var o := Download(name, path, disk, resume, declared, chunks, cutOff, arrivals, late);
      var existing := ExistingSize(disk, path);
      var prior := if resume && path in disk then disk[path] else [];
      var k := BreakIndex(arrivals, |chunks|);
      (path in o.disk <==> !o.cancel) &&
      (!o.cancel ==> o.disk[path] == prior + Concat(chunks[..k])) &&
      o.events == [Status(DownloadingText)]
                  + ProgressTrace(chunks[..k], if resume then existing else 0, declared + existing)
                  + [o.events[|o.events| - 1]]
  {
    var existing := ExistingSize(disk, path);
    var prior := if resume && path in disk then disk[path] else [];
    var k := BreakIndex(arrivals, |chunks|);
    var written := disk[path := prior + Concat(chunks[..k])];
    var trace := [Status(DownloadingText)] + ProgressTrace(chunks[..k], if resume then existing else 0, declared + existing);
    var failure := if k == |chunks| then cutOff else None;
    var seen := if k < |chunks| then Seen(arrivals, k) else NoRequests;
    assert Download(name, path, disk, resume, declared, chunks, cutOff, arrivals, late)
      == Settle(name, path, written, trace, declared + existing, failure, seen, late) by {
      DownloadSettles(name, path, disk, resume, declared, chunks, cutOff, arrivals, late,
                      k, written, trace, declared + existing, failure, seen);
    }
    SettleFile(name, path, written, trace, declared + existing, failure, seen, late);
  }

  /** The progress events of a stream that delivers at most `total - base` bytes stay in `(0, total]`. */
  lemma ProgressWithin(chunks: seq<seq<byte>>, base: int, total: int)
    requires 0 <= base && base + |Concat(chunks)| <= total
    ensures forall e :: e in ProgressTrace(chunks, base, total) ==> 0 < e.downloaded <= e.total
  {
  }

  /**
   * Progress stays within the total: when the stream delivers no more bytes
   * than its declared length, every progress event of a run has
   * `0 < downloaded <= total`, so the percentage lies in (0, 100].
   */
  lemma ProgressBounded(name: string, path: string, disk: Disk, resume: bool, declared: int,
                        chunks: seq<seq<byte>>, cutOff: Option<string>,
                        arrivals: seq<Requests>, late: Requests)
    requires |Concat(chunks)| <= declared
    ensures var o := Download(name, path, disk, resume, declared, chunks, cutOff, arrivals, late);
      forall e :: e in o.events && e.Progress? ==> 0 < e.downloaded <= e.total
  {
    var existing := ExistingSize(disk, path);
    var k := BreakIndex(arrivals, |chunks|);
    AppendOrTruncate(name, path, disk, resume, declared, chunks, cutOff, arrivals, late);
    ConcatPrefix(chunks, k);
    ProgressWithin(chunks[..k], if resume then existing else 0, declared + existing);
  }

  /** A reply other than 416 whose length parses goes through `Download` at the derived path. */
  lemma RunDownloads(url: string, saveDir: string, disk: Disk, status: int, length: Length,
                     chunks: seq<seq<byte>>, cutOff: Option<string>, arrivals: seq<Requests>, late: Requests)
    requires status != RangeNotSatisfiable && !length.Unparsable?
    ensures Run(url, saveDir, disk, Response(status, length, chunks, cutOff), arrivals, late)
      == Download(FileName(url), SavePath(saveDir, FileName(url)), disk, status == PartialContent,
                  DeclaredLength(length), chunks, cutOff, arrivals, late)
  {
  }

  /** A 416 reply finishes at once with the size already on disk: no byte written, no status, no progress. */
  lemma AlreadyComplete(url: string, saveDir: string, disk: Disk, length: Length,
                        chunks: seq<seq<byte>>, cutOff: Option<string>, arrivals: seq<Requests>, late: Requests)
    ensures var path := SavePath(saveDir, FileName(url));
      Run(url, saveDir, disk, Response(RangeNotSatisfiable, length, chunks, cutOff), arrivals, late)
        == Outcome(disk, [Finished(FileName(url), path, ExistingSize(disk, path))], false, false)
  {
  }

  /** Every run reports exactly one outcome: its last event, and no event before it, is terminal. */
  lemma OneOutcome(url: string, saveDir: string, disk: Disk, reply: Reply,
                   arrivals: seq<Requests>, late: Requests)
    ensures var o := Run(url, saveDir, disk, reply, arrivals, late);
      o.events[|o.events| - 1].IsTerminal() &&
      forall i :: 0 <= i < |o.events| - 1 ==> !o.events[i].IsTerminal()
  {
    var o := Run(url, saveDir, disk, reply, arrivals, late);
    if reply.Response? && reply.status != RangeNotSatisfiable && !reply.length.Unparsable? {
      RunDownloads(url, saveDir, disk, reply.status, reply.length, reply.chunks, reply.cutOff, arrivals, late);
      OnlyLastTerminal(o.events);
    }
  }

  /** A run leaves the disk as it was, removes its destination, or sets its destination. */
  lemma RunDiskShape(url: string, saveDir: string, disk: Disk, reply: Reply,
                     arrivals: seq<Requests>, late: Requests)
    ensures var path := SavePath(saveDir, FileName(url));
      var o := Run(url, saveDir, disk, reply, arrivals, late);
      o.disk == disk || o.disk == disk - {path} || (path in o.disk && o.disk == disk[path := o.disk[path]])
  {
    var name := FileName(url);
    var path := SavePath(saveDir, name);
    match reply
    case Raised(message) =>
      assert Run(url, saveDir, disk, reply, arrivals, late) == Outcome(disk, [Failed(message)], false, false);
    case Response(status, length, chunks, cutOff) =>
      if status == RangeNotSatisfiable {
        AlreadyComplete(url, saveDir, disk, length, chunks, cutOff, arrivals, late);
      } else if length.Unparsable? {
        assert Run(url, saveDir, disk, reply, arrivals, late) == Outcome(disk, [Failed(length.message)], false, false);
      } else {
        var d := Download(name, path, disk, status == PartialContent, DeclaredLength(length),
                          chunks, cutOff, arrivals, late);
        assert Run(url, saveDir, disk, reply, arrivals, late) == d by {
          RunDownloads(url, saveDir, disk, status, length, chunks, cutOff, arrivals, late);
        }
      }
  }

  /** A run touches no file but its destination. */
  lemma OnlyDestinationChanges(url: string, saveDir: string, disk: Disk, reply: Reply,
                               arrivals: seq<Requests>, late: Requests, other: string)
    requires other != SavePath(saveDir, FileName(url))
    ensures var o := Run(url, saveDir, disk, reply, arrivals, late);
      (other in o.disk <==> other in disk) && (other in disk ==> o.disk[other] == disk[other])
  {
    var path := SavePath(saveDir, FileName(url));
    var written := Run(url, saveDir, disk, reply, arrivals, late).disk;
    RunDiskShape(url, saveDir, disk, reply, arrivals, late);
    if written == disk - {path} {
      assert other in written <==> other in disk;
    }
  }

  /** When no check sees a request, the loop consumes every chunk. */
  lemma NoRequestNoBreak(arrivals: seq<Requests>, n: nat)
    requires forall i :: 0 <= i < |arrivals| ==> arrivals[i] == NoRequests
    ensures BreakIndex(arrivals, n) == n
  {
    var k := BreakIndex(arrivals, n);
    assert Seen(arrivals, k) == NoRequests;
  }

  /**
   * A stream that runs to its end with no request and no failure finishes:
   * the file holds the prior contents followed by every chunk, and the size
   * reported is the declared length plus the size found on disk.
   */
  lemma DownloadCompletes(name: string, path: string, disk: Disk, resume: bool, declared: int,
                          chunks: seq<seq<byte>>, arrivals: seq<Requests>)
    requires forall i :: 0 <= i < |arrivals| ==> arrivals[i] == NoRequests
    ensures var o := Download(name, path, disk, resume, declared, chunks, None, arrivals, NoRequests);
      var prior := if resume && path in disk then disk[path] else [];
      o.disk == disk[path := prior + Concat(chunks)] && !o.stop && !o.cancel &&
      o.events[|o.events| - 1] == Finished(name, path, declared + ExistingSize(disk, path))
  {
    var existing := ExistingSize(disk, path);
    var prior := if resume && path in disk then disk[path] else [];
    var total := declared + existing;
    var written := disk[path := prior + Concat(chunks)];
    var trace := [Status(DownloadingText)]
      + ProgressTrace(chunks, if resume then existing else 0, total);
    NoRequestNoBreak(arrivals, |chunks|);
    assert chunks[..|chunks|] == chunks;
    DownloadSettles(name, path, disk, resume, declared, chunks, None, arrivals, NoRequests,
                        |chunks|, written, trace, total, None, NoRequests);
    assert Settle(name, path, written, trace, total, None, NoRequests, NoRequests)
      == Outcome(written, trace + [Finished(name, path, total)], false, false);
  }

  /**
   * A failure while streaming leaves the file exactly as written so far and
   * ends the run with one `Failed` callback carrying the exception's text.
   */
  lemma FailureKeepsFile(url: string, saveDir: string, disk: Disk, status: int, length: Length,
                         chunks: seq<seq<byte>>, message: string, arrivals: seq<Requests>, late: Requests)
    requires status != RangeNotSatisfiable && !length.Unparsable?
    requires forall i :: 0 <= i < |arrivals| ==> arrivals[i] == NoRequests
    ensures var path := SavePath(saveDir, FileName(url));
      var prior := if status == PartialContent && path in disk then disk[path] else [];
      var o := Run(url, saveDir, disk, Response(status, length, chunks, Some(message)), arrivals, late);
      o.disk == disk[path := prior + Concat(chunks)] && o.events[|o.events| - 1] == Failed(message) &&
      !o.stop && !o.cancel
  {
    var name := FileName(url);
    var path := SavePath(saveDir, name);
    NoRequestNoBreak(arrivals, |chunks|);
    assert chunks[..|chunks|] == chunks;
    RunDownloads(url, saveDir, disk, status, length, chunks, Some(message), arrivals, late);
    var resume := status == PartialContent;
    var existing := ExistingSize(disk, path);
    var total := DeclaredLength(length) + existing;
    var k := |chunks|;
    var written := disk[path := (if resume && path in disk then disk[path] else []) + Concat(chunks[..k])];
    var trace := [Status(DownloadingText)] + ProgressTrace(chunks[..k], if resume then existing else 0, total);
    DownloadSettles(name, path, disk, resume, DeclaredLength(length), chunks, Some(message), arrivals, late,
                    k, written, trace, total, Some(message), NoRequests);
  }

  /**
   * A reply without a content-length header counts as declaring 0 bytes, so
   * a run that streams to its end without a request finishes reporting the
   * size the file had on disk before the request, however many bytes came
   * (`RunDownloads` hands `Download` the length as `DeclaredLength`).
   */
  lemma {:induction false} MissingLengthReportsExisting(name: string, path: string, disk: Disk, resume: bool,
                                                       chunks: seq<seq<byte>>, arrivals: seq<Requests>)
    requires forall i :: 0 <= i < |arrivals| ==> arrivals[i] == NoRequests
    ensures var o := Download(name, path, disk, resume, DeclaredLength(Absent), chunks, None, arrivals, NoRequests);
      o.events[|o.events| - 1] == Finished(name, path, if path in disk then |disk[path]| else 0)
  {
    DownloadCompletes(name, path, disk, resume, DeclaredLength(Absent), chunks, arrivals);
  }

  /**
   * Progress above 100%: a 206 reply without a content-length header over a
   * non-empty partial file makes the total the old size, while the count
   * starts from that size, so every progress event reports more bytes than
   * the total, and at least one such event fires once a byte arrives.
   */
  lemma {:induction false} ResumeWithoutLengthOverflows(name: string, path: string, disk: Disk,
                                                        chunks: seq<seq<byte>>, arrivals: seq<Requests>)
    requires path in disk && disk[path] != [] && Concat(chunks) != []
    requires forall i :: 0 <= i < |arrivals| ==> arrivals[i] == NoRequests
    ensures var o := Download(name, path, disk, true, DeclaredLength(Absent), chunks, None, arrivals, NoRequests);
      (exists e :: e in o.events && e.Progress?) &&
      (forall e :: e in o.events && e.Progress? ==> e.downloaded > e.total)
  {
    var existing := ExistingSize(disk, path);
    var o := Download(name, path, disk, true, DeclaredLength(Absent), chunks, None, arrivals, NoRequests);
    var progress := ProgressTrace(chunks, existing, existing);
    assert o.events == [Status(DownloadingText)] + progress + [o.events[|o.events| - 1]] by {
      NoRequestNoBreak(arrivals, |chunks|);
      assert chunks[..|chunks|] == chunks;
      AppendOrTruncate(name, path, disk, true, DeclaredLength(Absent), chunks, None, arrivals, NoRequests);
    }
    ProgressReported(chunks, existing, existing);
    assert progress[0] in o.events && progress[0].Progress? by {
      assert o.events[1] == progress[0];
    }
    forall e | e in o.events && e.Progress?
      ensures e.downloaded > e.total
    {
      assert e in progress;
    }
  }

  /**
   * Resuming: with a partial file on disk, a 206 reply (`resume`) that
   * declares and delivers the rest, and no request, the file ends as the old
   * part followed by the new bytes, and the size reported is the size of
   * that file.
   */
  lemma {:induction false} ResumeCompletes(name: string, path: string, disk: Disk,
                                           chunks: seq<seq<byte>>, arrivals: seq<Requests>)
    requires path in disk
    requires forall i :: 0 <= i < |arrivals| ==> arrivals[i] == NoRequests
    ensures var o := Download(name, path, disk, true, |Concat(chunks)|, chunks, None, arrivals, NoRequests);
      path in o.disk && o.disk[path] == disk[path] + Concat(chunks) &&
      o.events[|o.events| - 1] == Finished(name, path, |o.disk[path]|)
  {
    DownloadCompletes(name, path, disk, true, |Concat(chunks)|, chunks, arrivals);
  }

  /**
   * A fresh download: no file on disk, a reply that declares and delivers
   * `n > 0` bytes, and no request. The status event is followed by at least
   * one progress event, the file holds exactly the delivered bytes, and the
   * run finishes reporting `n`.
   */
  lemma {:induction false} FreshDownload(name: string, path: string, disk: Disk, resume: bool,
                                         chunks: seq<seq<byte>>, arrivals: seq<Requests>)
    requires path !in disk
    requires Concat(chunks) != []
    requires forall i :: 0 <= i < |arrivals| ==> arrivals[i] == NoRequests
    ensures var n := |Concat(chunks)|;
      var o := Download(name, path, disk, resume, n, chunks, None, arrivals, NoRequests);
      path in o.disk && o.disk[path] == Concat(chunks) &&
      o.events[|o.events| - 1] == Finished(name, path, n) &&
      o.events[0] == Status(DownloadingText) && o.events[1].Progress?
  {
    var n := |Concat(chunks)|;
    DownloadCompletes(name, path, disk, resume, n, chunks, arrivals);
    NoRequestNoBreak(arrivals, |chunks|);
    assert chunks[..|chunks|] == chunks;
    AppendOrTruncate(name, path, disk, resume, n, chunks, None, arrivals, NoRequests);
    ProgressReported(chunks, 0, n);
  }

  /**
   * The server ignoring the range (any status but 206 and 416, so not
   * `resume`) over a partial file: the file is truncated and rewritten, but
   * the size reported on finishing still adds the old size, so it exceeds
   * the file's length by exactly that much.
   */
  lemma {:induction false} RestartOverstatesSize(name: string, path: string, disk: Disk,
                                                 chunks: seq<seq<byte>>, arrivals: seq<Requests>)
    requires path in disk
    requires forall i :: 0 <= i < |arrivals| ==> arrivals[i] == NoRequests
    ensures var o := Download(name, path, disk, false, |Concat(chunks)|, chunks, None, arrivals, NoRequests);
      path in o.disk && o.disk[path] == Concat(chunks) &&
      o.events[|o.events| - 1] == Finished(name, path, |o.disk[path]| + |disk[path]|)
  {
    DownloadCompletes(name, path, disk, false, |Concat(chunks)|, chunks, arrivals);
  }

  // ---------------------------------------------------------------------------
  // The process id counter and the Process class
  // ---------------------------------------------------------------------------

  /** The class-level `Process.process_id_counter`, shared by every process. */
  class IdCounter {
    var next: int

    constructor ()
      ensures next == 1
    {
      next := 1;
    }
  }

  class Process {
    const pid: int
    const url: string
    var downloading: bool
    var stopRequested: bool
    var cancelRequested: bool

    /** A new process takes the counter's value as its id and advances the counter. */
    constructor (url: string, ids: IdCounter)
      modifies ids
      ensures pid == old(ids.next) && ids.next == old(ids.next) + 1
      ensures this.url == url
      ensures !downloading && !stopRequested && !cancelRequested
    {
      this.pid := ids.next;
      this.url := url;
      downloading, stopRequested, cancelRequested := false, false, false;
      ids.next := ids.next + 1;
    }

    /**
     * One download attempt. Both request flags are cleared on entry, so the
     * outcome does not depend on requests made before the run; `downloading`
     * is false again on every exit.
     */
    method Start(saveDir: string, disk: Disk, reply: Reply, arrivals: seq<Requests>, late: Requests)
      returns (disk': Disk, events: seq<Event>)
      modifies this`downloading, this`stopRequested, this`cancelRequested
      ensures !downloading
      ensures Outcome(disk', events, stopRequested, cancelRequested)
        == Run(url, saveDir, disk, reply, arrivals, late)
    {
      downloading := true;
      stopRequested := false;
      cancelRequested := false;
      disk' := disk;
      var name := FileName(url);
      var path := SavePath(saveDir, name);
      ghost var run := Run(url, saveDir, disk, reply, arrivals, late);
      if reply.Raised? {
        events := [Failed(reply.message)];
        assert run == Outcome(disk', events, false, false);
      } else if reply.status == RangeNotSatisfiable {
        events := [Finished(name, path, ExistingSize(disk, path))];
        assert run == Outcome(disk', events, false, false);
      } else if reply.length.Unparsable? {
        events := [Failed(reply.length.message)];
        assert run == Outcome(disk', events, false, false);
      } else {
        disk', events := Receive(name, path, disk, reply.status == PartialContent,
                                 DeclaredLength(reply.length), reply.chunks, reply.cutOff, arrivals, late);
        assert run == Download(name, path, disk, reply.status == PartialContent,
                               DeclaredLength(reply.length), reply.chunks, reply.cutOff, arrivals, late) by {
          RunDownloads(url, saveDir, disk, reply.status, reply.length, reply.chunks, reply.cutOff, arrivals, late);
        }
      }
      downloading := false;
    }

    /** The part of `start` after a reply other than 416 whose length parses. */
    method Receive(name: string, path: string, disk: Disk, resume: bool, declared: int,
                   chunks: seq<seq<byte>>, cutOff: Option<string>,
                   arrivals: seq<Requests>, late: Requests)
      returns (disk': Disk, events: seq<Event>)
      requires !stopRequested && !cancelRequested
      modifies this`stopRequested, this`cancelRequested
      ensures Outcome(disk', events, stopRequested, cancelRequested)
        == Download(name, path, disk, resume, declared, chunks, cutOff, arrivals, late)
    {
      var existing := ExistingSize(disk, path);
      var total := declared + existing;
      var base := if resume then existing else 0;
      // open in append mode, or in truncate mode
      ghost var prior := if resume && path in disk then disk[path] else [];
      disk' := disk[path := if resume && path in disk then disk[path] else []];
      var progress, k;
      disk', progress, k := WriteChunks(path, disk', chunks, arrivals, base, total);
      assert disk' == disk[path := prior + Concat(chunks[..k])];
      events := [Status(DownloadingText)] + progress;
      var failure := if k == |chunks| then cutOff else None;
      ghost var seen := if k < |chunks| then Seen(arrivals, k) else NoRequests;
      assert Requests(stopRequested, cancelRequested) == seen;
      DownloadSettles(name, path, disk, resume, declared, chunks, cutOff, arrivals, late,
                          k, disk', events, total, failure, seen);
      disk', events := Finish(name, path, disk', events, total, failure, late);
    }

    /**
     * After the chunk loop: report a failure, or fold in the requests that
     * arrived late and then remove the file and report the cancellation, or
     * report the pause, or report the finished download.
     */
    method Finish(name: string, path: string, written: Disk, trace: seq<Event>, total: int,
                  failure: Option<string>, late: Requests)
      returns (disk': Disk, events: seq<Event>)
      requires failure.Some? ==> !stopRequested && !cancelRequested
      modifies this`stopRequested, this`cancelRequested
      ensures Outcome(disk', events, stopRequested, cancelRequested)
        == Settle(name, path, written, trace, total, failure,
                  Requests(old(stopRequested), old(cancelRequested)), late)
    {
      disk', events := written, trace;
      if failure.Some? {
        events := events + [Failed(failure.value)];
        return;
      }
      stopRequested := stopRequested || late.pause;
      cancelRequested := cancelRequested || late.cancel;
      if cancelRequested {
        if path in disk' {
          disk' := disk' - {path};
        }
        events := events + [Cancelled];
      } else if stopRequested {
        events := events + [Paused];
      } else {
        events := events + [Finished(name, path, total)];
      }
    }

    /**
     * The chunk loop: before each chunk, check the flags (with the requests
     * that arrived since the previous check) and stop at the first request;
     * otherwise append a non-empty chunk to the file at `path` and report
     * progress when the total is known. `k` is the number of chunks consumed.
     */
    method WriteChunks(path: string, disk: Disk, chunks: seq<seq<byte>>, arrivals: seq<Requests>,
                       base: int, total: int)
      returns (disk': Disk, progress: seq<Event>, k: nat)
      requires path in disk && !stopRequested && !cancelRequested
      modifies this`stopRequested, this`cancelRequested
      ensures k == BreakIndex(arrivals, |chunks|)
      ensures disk' == disk[path := disk[path] + Concat(chunks[..k])]
      ensures progress == ProgressTrace(chunks[..k], base, total)
      ensures var seen := if k < |chunks| then Seen(arrivals, k) else NoRequests;
        stopRequested == seen.pause && cancelRequested == seen.cancel
    {
      var file := disk[path];
      progress := [];
      var downloaded := base;
      k := 0;
      assert chunks[..0] == [];
      assert Consumed(chunks, 0, base, total, disk[path], file, downloaded, progress);
      while k < |chunks|
        invariant 0 <= k <= |chunks|
        invariant forall j :: 0 <= j < k ==> Seen(arrivals, j) == NoRequests
        invariant !stopRequested && !cancelRequested
        invariant Consumed(chunks, k, base, total, disk[path], file, downloaded, progress)
      {
        var r := Seen(arrivals, k);
        stopRequested := stopRequested || r.pause;
        cancelRequested := cancelRequested || r.cancel;
        if stopRequested || cancelRequested {
          BreakIndexAt(arrivals, |chunks|, k);
          break;
        }
        ConsumedStep(chunks, k, base, total, disk[path], file, downloaded, progress);
        file, downloaded, progress := WriteChunk(file, downloaded, progress, chunks[k], total);
        k := k + 1;
      }
      if k == |chunks| {
        BreakIndexAt(arrivals, |chunks|, k);
      }
      disk' := disk[path := file];
    }

    /**
     * One pass of the chunk loop past the flag check: a non-empty chunk is
     * appended to the file, counted, and reported when the total is known.
     */
    static method WriteChunk(file: seq<byte>, downloaded: int, progress: seq<Event>, chunk: seq<byte>, total: int)
      returns (file': seq<byte>, downloaded': int, progress': seq<Event>)
      ensures file' == file + chunk && downloaded' == downloaded + |chunk|
      ensures progress' == progress + if chunk != [] && total > 0 then [Progress(downloaded', total)] else []
      ensures file' == file + Concat([chunk]) && progress' == progress + ProgressTrace([chunk], downloaded, total)
    {
      assert [chunk][..0] == [];
      file', downloaded', progress' := file, downloaded, progress;
      if chunk != [] {
        file' := file' + chunk;
        downloaded' := downloaded' + |chunk|;
        if total > 0 {
          progress' := progress' + [Progress(downloaded', total)];
        }
      } else {
        assert file + chunk == file;
      }
    }

    /** Asks a running attempt to stop at its next chunk and keep the partial file. */
    method Pause()
      modifies this`stopRequested
      ensures stopRequested
    {
      stopRequested := true;
    }

    /** Asks a running attempt to stop at its next chunk and delete the file. */
    method Cancel()
      modifies this`cancelRequested
      ensures cancelRequested
    {
      cancelRequested := true;
    }
  }
}
