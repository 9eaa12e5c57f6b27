/**
 * The download engine of downloader.py: a registry from process ids to
 * `Process` objects, deduplicated by URL, with pause and cancel routed by id.
 *
 * The registry dictionary is `processes`; its insertion order, which the
 * duplicate scan follows, is `order`. Submitting `Process.start` to the
 * thread pool appends the process to the FIFO `queue`; `RunNext` is the pool
 * taking the oldest task and running it to its end.
 */
module Engine {
  import opened Transfer

  /** No id occurs twice. */
  predicate Distinct(s: seq<int>)
  {
    forall i, j :: 0 <= i < j < |s| ==> s[i] != s[j]
  }

  /** `s` with `x` removed, the others kept in their order: a `del` on the dictionary's key order. */
  function Without(s: seq<int>, x: int): (r: seq<int>)
    ensures forall y :: y in r <==> y in s && y != x
    ensures Distinct(s) ==> Distinct(r)
  {
    if s == [] then []
    else if s[0] == x then Without(s[1..], x)
    else
      var rest := Without(s[1..], x);
      assert s[0] !in rest ==> forall i :: 0 < i < |[s[0]] + rest| ==> ([s[0]] + rest)[i] == rest[i - 1];
      [s[0]] + rest
  }

  class DownloadEngine {
    /** The class-level counter of `Process`, shared by every process this engine creates. */
    const ids: IdCounter
    var processes: map<int, Process>
    var order: seq<int>
    var queue: seq<Process>
    /** Every id this engine has handed out, registered or not. */
    ghost var issued: set<int>

    /**
     * The registry's keys are exactly the ids in `order`, each once; every
     * key is the id of the process stored under it; and every id handed out
     * so far lies below the counter, so the counter never produces it again.
     */
    ghost predicate Valid()
      reads this, ids
    {
      (forall k :: k in processes <==> k in order) && Distinct(order) &&
      (forall k :: k in processes ==> processes[k].pid == k) &&
      processes.Keys <= issued &&
      (forall i :: 0 <= i < |queue| ==> queue[i].pid in issued) &&
      (forall k :: k in issued ==> k < ids.next)
    }

    constructor (ids: IdCounter)
      ensures Valid()
      ensures this.ids == ids && processes == map[] && order == [] && queue == [] && issued == {}
    {
      this.ids := ids;
      processes, order, queue := map[], [], [];
      issued := {};
    }

    /** The process under `k` is for `url` and is downloading. */
    ghost predicate Active(k: int, url: string)
      requires k in processes
      reads this, processes.Values
    {
      processes[k].url == url && processes[k].downloading
    }

    /**
     * The position, from `from` on, of the first registered process for
     * `url` that is downloading, in insertion order; `|order|` when there is
     * none.
     */
    ghost function FirstActive(url: string, from: nat): (j: nat)
      requires Valid() && from <= |order|
      reads this, ids, processes.Values
      ensures from <= j <= |order|
      ensures forall m :: from <= m < j ==> !Active(order[m], url)
      ensures j < |order| ==> Active(order[j], url)
      decreases |order| - from
    {
      if from == |order| then from
      else if Active(order[from], url) then from
      else FirstActive(url, from + 1)
    }

    /**
     * `start_download`. Scanning in insertion order, the first process for
     * `url` that is downloading is the answer, and nothing is created; every
     * process for `url` met before it has been asked to pause. When there is
     * none, every process for `url` has been asked to pause and stays
     * registered, and a fresh process under a never-issued id is registered
     * last and submitted once.
     */
    method StartDownload(url: string) returns (pid: int)
      requires Valid()
      modifies this, ids, processes.Values
      ensures Valid()
      ensures old(FirstActive(url, 0)) < |old(order)| ==>
        pid == old(order)[old(FirstActive(url, 0))] &&
        processes == old(processes) && order == old(order) && queue == old(queue) &&
        issued == old(issued) && ids.next == old(ids.next)
      ensures old(FirstActive(url, 0)) == |old(order)| ==>
        pid == old(ids.next) && ids.next == pid + 1 && pid !in old(issued) &&
        pid in processes && fresh(processes[pid]) && processes == old(processes)[pid := processes[pid]] &&
        order == old(order) + [pid] && queue == old(queue) + [processes[pid]] &&
        issued == old(issued) + {pid} &&
        processes[pid].url == url && !processes[pid].downloading &&
        !processes[pid].stopRequested && !processes[pid].cancelRequested
      ensures forall i :: 0 <= i < |old(order)| ==>
        var p := old(processes)[old(order)[i]];
        p.stopRequested == (old(p.stopRequested) || (p.url == url && i < old(FirstActive(url, 0)))) &&
        p.downloading == old(p.downloading) && p.cancelRequested == old(p.cancelRequested)
    {
      var j := Scan(url);
      if j < |order| {
        return order[j];
      }
      pid := Register(url);
    }

    /**
     * The loop of `start_download`: walk the registry in insertion order,
     * asking each process for `url` to pause, up to the first one that is
     * downloading, whose position is returned (`|order|` when none is).
     */
    method Scan(url: string) returns (j: nat)
      requires Valid()
      modifies processes.Values
      ensures j == old(FirstActive(url, 0))
      ensures forall i :: 0 <= i < |order| ==>
        var p := processes[order[i]];
        p.stopRequested == (old(p.stopRequested) || (p.url == url && i < j)) &&
        p.downloading == old(p.downloading) && p.cancelRequested == old(p.cancelRequested)
    {
      ghost var first := FirstActive(url, 0);
      j := 0;
      while j < |order|
        invariant 0 <= j <= first
        invariant forall m :: 0 <= m < |order| ==>
          var p := processes[order[m]];
          p.stopRequested == (old(p.stopRequested) || (p.url == url && m < j)) &&
          p.downloading == old(p.downloading) && p.cancelRequested == old(p.cancelRequested)
      {
        var p := processes[order[j]];
        if p.url == url {
          if p.downloading {
            return;
          }
          PauseDownload(order[j]);
        }
        j := j + 1;
      }
    }

    /**
     * Steps 2 to 4 of `start_download`: create a process for `url`, which
     * takes the counter's id, store it under that id, and submit it.
     */
    method Register(url: string) returns (pid: int)
      requires Valid()
      modifies this, ids
      ensures Valid()
      ensures pid == old(ids.next) && ids.next == pid + 1 && pid !in old(issued)
      ensures pid in processes && fresh(processes[pid]) && processes == old(processes)[pid := processes[pid]]
      ensures order == old(order) + [pid] && queue == old(queue) + [processes[pid]]
      ensures issued == old(issued) + {pid}
      ensures processes[pid].url == url && !processes[pid].downloading
      ensures !processes[pid].stopRequested && !processes[pid].cancelRequested
    {
      var proc := new Process(url, ids);
      pid := proc.pid;
      processes := processes[pid := proc];
      order := order + [pid];
      queue := queue + [proc];
      issued := issued + {pid};
    }

    /** `pause_download`: a known id has its process asked to pause; an unknown id changes nothing. */
    method PauseDownload(pid: int)
      requires Valid()
      modifies if pid in processes then {processes[pid]} else {}
      ensures pid in processes ==>
        processes[pid].stopRequested && processes[pid].downloading == old(processes[pid].downloading) &&
        processes[pid].cancelRequested == old(processes[pid].cancelRequested)
    {
      if pid in processes {
        processes[pid].Pause();
      }
    }

    /**
     * `cancel_download`: a known id has its process asked to cancel and
     * leaves the registry, the other entries staying as they were, in their
     * order; an unknown id changes nothing.
     */
    method CancelDownload(pid: int)
      requires Valid()
      modifies if pid in processes then {this, processes[pid]} else {}
      ensures Valid()
      ensures processes == old(processes) - {pid} && order == Without(old(order), pid)
      ensures queue == old(queue) && issued == old(issued)
      ensures pid in old(processes) ==>
        var p := old(processes)[pid];
        p.cancelRequested && p.stopRequested == old(p.stopRequested) && p.downloading == old(p.downloading)
    {
      if pid in processes {
        processes[pid].Cancel();
        processes := processes - {pid};
        order := Without(order, pid);
      } else {
        assert processes - {pid} == processes;
        assert order == Without(order, pid) by {
          WithoutAbsent(order, pid);
        }
      }
    }

    /**
     * The pool takes the oldest submitted task and runs its process's
     * `start` to the end, whether or not the process is still registered.
     */
    method RunNext(saveDir: string, disk: Disk, reply: Reply, arrivals: seq<Requests>, late: Requests)
      returns (p: Process, disk': Disk, events: seq<Event>)
      requires Valid() && queue != []
      modifies this, queue[0]
      ensures Valid()
      ensures p == old(queue[0]) && queue == old(queue[1..])
      ensures processes == old(processes) && order == old(order) && issued == old(issued)
      ensures !p.downloading
      ensures Outcome(disk', events, p.stopRequested, p.cancelRequested)
        == Run(p.url, saveDir, disk, reply, arrivals, late)
    {
      p := queue[0];
      queue := queue[1..];
      assert Valid();
      disk', events := p.Start(saveDir, disk, reply, arrivals, late);
    }
  }

  /**
   * Ids are never reused: once an id has been handed out, even if its
   * download is cancelled and leaves the registry, a later `start_download`
   * returns a different id.
   */
  method CancelThenStart(e: DownloadEngine, pid: int, url: string) returns (r: int)
    requires e.Valid() && pid in e.issued
    modifies e, e.ids, e.processes.Values
    ensures r != pid
  {
    e.CancelDownload(pid);
    assert e.processes.Values <= old(e.processes.Values);
    r := e.StartDownload(url);
  }

  /**
   * A cancel that reaches a process before the pool starts it is lost:
   * `start` clears the flag on entry, so the process that left the registry
   * still downloads exactly as a run with no request would.
   */
  method CancelBeforeRun(e: DownloadEngine, url: string, saveDir: string, disk: Disk, reply: Reply)
    returns (disk': Disk, events: seq<Event>)
    requires e.Valid() && e.queue == [] && e.FirstActive(url, 0) == |e.order|
    modifies e, e.ids, e.processes.Values
    ensures var o := Run(url, saveDir, disk, reply, [], NoRequests);
      disk' == o.disk && events == o.events
  {
    var pid := e.StartDownload(url);
    e.CancelDownload(pid);
    var p;
    p, disk', events := e.RunNext(saveDir, disk, reply, [], NoRequests);
  }

  /**
   * Two downloads of one URL while the first still waits in the pool's
   * queue: the first is not downloading yet, so the second
   * `start_download` asks it to pause and registers a second process. The
   * pool then starts the first one, whose `start` clears the pause, and it
   * downloads exactly as a run with no request would: the URL is fetched
   * twice.
   */
  method PausedWhileQueuedStillRuns(e: DownloadEngine, url: string, saveDir: string, disk: Disk, reply: Reply)
    returns (first: int, second: int, paused: bool, disk': Disk, events: seq<Event>)
    requires e.Valid() && e.queue == [] && e.FirstActive(url, 0) == |e.order|
    modifies e, e.ids, e.processes.Values
    ensures first != second && paused
    ensures var o := Run(url, saveDir, disk, reply, [], NoRequests);
      disk' == o.disk && events == o.events
  {
    first := e.StartDownload(url);
    assert e.FirstActive(url, 0) == |e.order| by {
      forall m | 0 <= m < |e.order|
        ensures !e.Active(e.order[m], url)
      {
        if m < |e.order| - 1 {
          assert e.order[m] == old(e.order)[m];
        }
      }
    }
    second := e.StartDownload(url);
    paused := e.processes[first].stopRequested;
    var p;
    p, disk', events := e.RunNext(saveDir, disk, reply, [], NoRequests);
  }

  /**
   * Removing an id that occurs once at position `i` leaves the ids before
   * and after it in their order: the key order after a `del`.
   */
  lemma {:induction false} WithoutSlice(s: seq<int>, x: int, i: int)
    requires Distinct(s) && 0 <= i < |s| && s[i] == x
    ensures Without(s, x) == s[..i] + s[i + 1..]
  {
    if i == 0 {
      assert x !in s[1..] by {
        forall m | 0 <= m < |s[1..]|
          ensures s[1..][m] != x
        {
          assert s[1..][m] == s[m + 1];
        }
      }
      WithoutAbsent(s[1..], x);
    } else {
      assert Distinct(s[1..]) by {
        forall a, b | 0 <= a < b < |s[1..]|
          ensures s[1..][a] != s[1..][b]
        {
          assert s[1..][a] == s[a + 1] && s[1..][b] == s[b + 1];
        }
      }
      WithoutSlice(s[1..], x, i - 1);
      assert s[..i] == [s[0]] + s[1..][..i - 1];
      assert s[i + 1..] == s[1..][i..];
    }
  }

  /** Removing an id that is not there leaves the order as it is. */
  lemma {:induction false} WithoutAbsent(s: seq<int>, x: int)
    requires x !in s
    ensures Without(s, x) == s
  {
    if s != [] {
      WithoutAbsent(s[1..], x);
      assert [s[0]] + s[1..] == s;
    }
  }
}
