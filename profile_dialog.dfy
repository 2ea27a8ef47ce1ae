/** The bookkeeping of the profile dialog: the list of Steam users found on
    disk and the background update of their display names, the ignore list
    as text items, and the selection of a user by account id.

    The display-name lookup is a web request; it is an input here, a
    function from account id to an optional name. */
module ProfileDialog {
  import opened Wrappers
  import opened Numbers
  import opened ProfileCodec
  import ProfileRoundTrip

  // ---------------------------------------------------------------------
  // User records

  /** `UserRecord`: a user directory name and, once looked up, a display
      name (`None` is null). */
  datatype UserRecord = UserRecord(dirName: string, displayName: Option<string>)

  /** `UserRecord.ToString`. */
  function RecordText(u: UserRecord): (r: string)
    ensures u.dirName <= r
  {
    match u.displayName
    case None => u.dirName
    case Some(name) => u.dirName + " - " + name
  }

  /** The text is the bare directory name exactly when no display name is
      known, and otherwise the directory name, a separator and the name. */
  lemma RecordTextRule(u: UserRecord)
    ensures RecordText(u) == u.dirName <==> u.displayName.None?
    ensures u.displayName.Some? ==> RecordText(u)[|u.dirName| + 3..] == u.displayName.value
  {
    if u.displayName.Some? {
      assert |RecordText(u)| == |u.dirName| + 3 + |u.displayName.value|;
    }
  }

  /** The list box: its records and its selected index (-1 for none). */
  datatype Listing = Listing(users: seq<UserRecord>, selected: int)

  /** The name shown for a looked-up user: the name, or "?" when the lookup
      gave nothing. */
  function ShownName(name: Option<string>): (r: string)
    ensures name.Some? ==> r == name.value
    ensures name.None? ==> r == "?"
  {
    name.GetOr("?")
  }

  /** `UpdateDisplayNameInList`: the record at `index` gets the shown name;
      the record is removed and re-inserted, after which the selection is
      put back on it if it was selected and moved to the first record
      otherwise. */
  function PublishName(l: Listing, index: nat, name: Option<string>): (r: Listing)
    requires index < |l.users|
    ensures |r.users| == |l.users|
    ensures r.users[index] == UserRecord(l.users[index].dirName, Some(ShownName(name)))
    ensures forall i :: 0 <= i < |l.users| && i != index ==> r.users[i] == l.users[i]
    ensures r.selected == if l.selected == index then index else 0
  {
    Listing(l.users[index := l.users[index].(displayName := Some(ShownName(name)))],
            if l.selected == index then index else 0)
  }

  // ---------------------------------------------------------------------
  // The job queue

  /** A name-update job: the list index of a user and its directory name. */
  datatype Job = Job(index: nat, dir: string)

  /** The queue `StartThreadedNameUpdate` builds: one job per record, in
      list order. */
  function JobQueue(users: seq<UserRecord>): (q: seq<Job>)
    ensures |q| == |users|
    ensures forall i :: 0 <= i < |q| ==> q[i] == Job(i, users[i].dirName)
  {
    seq(|users|, i requires 0 <= i < |users| => Job(i, users[i].dirName))
  }

  /** The loop that fills the queue. */
  method BuildQueue(users: seq<UserRecord>) returns (q: seq<Job>)
    ensures q == JobQueue(users)
  {
    q := [];
    var i := 0;
    while i < |users|
      invariant 0 <= i <= |users|
      invariant q == JobQueue(users)[..i]
    {
      q := q + [Job(i, users[i].dirName)];
      i := i + 1;
    }
    assert JobQueue(users)[..|users|] == JobQueue(users);
  }

  /** The number of workers started: `max(1, jobs)`. */
  function ThreadCount(jobs: nat): (r: nat)
    ensures r >= 1 && r >= jobs
    ensures r == 1 || r == jobs
  {
    if 1 > jobs then 1 else jobs
  }

  /** Whether every job of a queue names a record of the list. */
  predicate JobsInRange(jobs: seq<Job>, users: seq<UserRecord>) {
    forall i :: 0 <= i < |jobs| ==> jobs[i].index < |users|
  }

  lemma JobQueueInRange(users: seq<UserRecord>)
    ensures JobsInRange(JobQueue(users), users)
  {
  }

  // ---------------------------------------------------------------------
  // One worker draining the queue alone

  /** The listing after the names of `jobs` were published in order. */
  function PublishAll(l: Listing, jobs: seq<Job>, names: Int64 -> Option<string>): (r: Listing)
    requires JobsInRange(jobs, l.users)
    ensures |r.users| == |l.users|
  {
    if jobs == [] then l
    else
      var job := jobs[|jobs| - 1];
      var before := PublishAll(l, jobs[..|jobs| - 1], names);
      PublishName(before, job.index, names(DirNameToId64(job.dir)))
  }

  /** What a lone worker leaves: the listing, how many names it published
      and how many jobs it took from the queue. */
  datatype Drained = Drained(listing: Listing, published: nat, dequeued: nat)

  /** `NameUpdateThread` run by a single worker. `abortFrom` is the number of
      lookups after which the shared `Aborted` flag reads as set (the flag is
      only ever raised, so one threshold describes every run). The abort is
      checked after each lookup, not before taking a job: the job during
      which the flag is first seen is taken and looked up, and its name is
      not published. */
  method DrainQueue(l: Listing, jobs: seq<Job>, names: Int64 -> Option<string>, abortFrom: nat)
    returns (d: Drained)
    requires JobsInRange(jobs, l.users)
    ensures d.published == if abortFrom < |jobs| then abortFrom else |jobs|
    ensures d.dequeued == if abortFrom < |jobs| then abortFrom + 1 else |jobs|
    ensures d.published <= d.dequeued <= |jobs|
    ensures d.listing == PublishAll(l, jobs[..d.published], names)
  {
    var listing := l;
    var queue := jobs;
    var published := 0;
    var dequeued := 0;
    var abort := false;
    while !abort
      invariant 0 <= dequeued <= |jobs| && queue == jobs[dequeued..]
      invariant !abort ==> published == dequeued && dequeued <= abortFrom
      invariant abort ==> published == (if abortFrom < |jobs| then abortFrom else |jobs|)
      invariant abort ==> dequeued == (if abortFrom < |jobs| then abortFrom + 1 else |jobs|)
      invariant published <= dequeued
      invariant JobsInRange(jobs[..published], l.users)
      invariant listing == PublishAll(l, jobs[..published], names)
      decreases |queue| + (if abort then 0 else 1)
    {
      if |queue| > 0 {
        var job := queue[0];
        queue := queue[1..];
        var name := names(DirNameToId64(job.dir));
        if dequeued >= abortFrom {
          abort := true;
        } else {
          PublishAllStep(l, jobs, published, names);
          listing := PublishName(listing, job.index, name);
          published := published + 1;
        }
        dequeued := dequeued + 1;
      } else {
        abort := true;
      }
    }
    d := Drained(listing, published, dequeued);
  }

  lemma PublishAllStep(l: Listing, jobs: seq<Job>, k: nat, names: Int64 -> Option<string>)
    requires k < |jobs| && JobsInRange(jobs, l.users)
    ensures JobsInRange(jobs[..k], l.users) && JobsInRange(jobs[..k + 1], l.users)
    ensures PublishAll(l, jobs[..k + 1], names) ==
            PublishName(PublishAll(l, jobs[..k], names), jobs[k].index, names(DirNameToId64(jobs[k].dir)))
  {
    assert jobs[..k + 1][..k] == jobs[..k];
  }

  /** A lone worker that is never aborted publishes every user's name: the
      looked-up name, or "?" when the lookup gave nothing; and after the
      first publication the selection is on the first record. */
  lemma {:induction false} PublishAllNames(l: Listing, k: nat, names: Int64 -> Option<string>)
    requires k <= |l.users|
    ensures JobsInRange(JobQueue(l.users)[..k], l.users)
    ensures var r := PublishAll(l, JobQueue(l.users)[..k], names);
      (forall i :: 0 <= i < k ==>
         r.users[i] == UserRecord(l.users[i].dirName, Some(ShownName(names(DirNameToId64(l.users[i].dirName)))))) &&
      (forall i :: k <= i < |l.users| ==> r.users[i] == l.users[i]) &&
      (k > 0 ==> r.selected == 0)
  {
    var jobs := JobQueue(l.users)[..k];
    if k > 0 {
      PublishAllNames(l, k - 1, names);
      assert jobs[..k - 1] == JobQueue(l.users)[..k - 1];
    }
  }

  // ---------------------------------------------------------------------
  // Several workers, interleaved

  /** Where a worker is in `NameUpdateThread`: about to take a job, looking
      up the name of a job it took, out of the loop and about to call
      `OnNameUpdateThreadTerminate`, or finished. */
  datatype Worker = Taking | Resolving(job: Job) | Exiting | Terminated

  /** The state of the buttons and status text. */
  datatype UpdateUi = Normal | Running | Stopping

  /** The number of workers that have not terminated yet. */
  function Live(ws: seq<Worker>): (n: nat)
    ensures n <= |ws|
  {
    if ws == [] then 0 else Live(ws[..|ws| - 1]) + (if ws[|ws| - 1].Terminated? then 0 else 1)
  }

  /** The number of workers holding a job they took. */
  function InFlight(ws: seq<Worker>): (n: nat)
    ensures n <= |ws|
  {
    if ws == [] then 0 else InFlight(ws[..|ws| - 1]) + (if ws[|ws| - 1].Resolving? then 1 else 0)
  }

  lemma {:induction false} LiveUpdate(ws: seq<Worker>, w: nat, x: Worker)
    requires w < |ws|
    ensures Live(ws[w := x]) ==
            Live(ws) - (if ws[w].Terminated? then 0 else 1) + (if x.Terminated? then 0 else 1)
    ensures InFlight(ws[w := x]) ==
            InFlight(ws) - (if ws[w].Resolving? then 1 else 0) + (if x.Resolving? then 1 else 0)
  {
    var last := |ws| - 1;
    if w < last {
      LiveUpdate(ws[..last], w, x);
      assert ws[w := x][..last] == ws[..last][w := x];
    } else {
      assert ws[w := x][..last] == ws[..last];
    }
  }

  /** `n` workers that have not started their loop yet. */
  function Idle(n: nat): (ws: seq<Worker>)
    ensures |ws| == n
    ensures forall w :: 0 <= w < n ==> ws[w] == Taking
  {
    if n == 0 then [] else Idle(n - 1) + [Taking]
  }

  lemma {:induction false} IdleCounts(n: nat)
    ensures Live(Idle(n)) == n
    ensures InFlight(Idle(n)) == 0
  {
    if n > 0 {
      IdleCounts(n - 1);
      assert Idle(n)[..n - 1] == Idle(n - 1);
    }
  }

  /** The dialog's name-update bookkeeping. Each method is one atomic step of
      the UI thread or of one worker; any interleaving of the steps whose
      preconditions hold is a possible run. */
  class NameUpdate {
    var listing: Listing
    var threadCount: int
    var aborted: bool
    var ui: UpdateUi
    var queue: seq<Job>
    var workers: seq<Worker>

    /** The jobs of the current round and the names published in it. */
    ghost var jobs: seq<Job>
    ghost var published: nat

    ghost predicate Valid()
      reads this
    {
      && |queue| <= |jobs| && queue == jobs[|jobs| - |queue|..]
      && JobsInRange(jobs, listing.users)
      && (forall w :: 0 <= w < |workers| && workers[w].Resolving? ==> workers[w].job.index < |listing.users|)
      && threadCount == Live(workers)
      && (threadCount == 0 <==> ui == Normal)
      && published + InFlight(workers) + |queue| <= |jobs|
    }

    constructor(users: seq<UserRecord>)
      ensures Valid()
      ensures listing == Listing(users, -1) && threadCount == 0 && ui == Normal && !aborted
    {
      listing := Listing(users, -1);
      threadCount := 0;
      aborted := false;
      ui := Normal;
      queue := [];
      workers := [];
      jobs := [];
      published := 0;
    }

    /** `StartThreadedNameUpdate`: nothing while workers run; otherwise a
        fresh abort flag, one job per user and `max(1, jobs)` workers. */
    method Start()
      requires Valid()
      modifies this
      ensures Valid()
      ensures old(threadCount) > 0 ==> unchanged(this)
      ensures old(threadCount) == 0 ==>
                && listing == old(listing)
                && jobs == JobQueue(listing.users) && queue == jobs
                && workers == Idle(ThreadCount(|jobs|))
                && threadCount == |workers| && ui == Running && !aborted && published == 0
    {
      if threadCount > 0 {
        return;
      }
      var q := BuildQueue(listing.users);
      JobQueueInRange(listing.users);
      assert q == q[|q| - |q|..];
      var threads := ThreadCount(|q|);
      IdleCounts(threads);
      aborted := false;
      ui := Running;
      queue := q;
      jobs := q;
      published := 0;
      workers := Idle(threads);
      threadCount := threads;
    }

    /** A worker takes the next job, or leaves its loop when the queue is
        empty. The abort flag is not consulted. */
    method Take(w: nat)
      requires Valid() && w < |workers| && workers[w] == Taking
      modifies this
      ensures Valid()
      ensures old(queue) != [] ==> workers == old(workers)[w := Resolving(old(queue)[0])] && queue == old(queue)[1..]
      ensures old(queue) == [] ==> workers == old(workers)[w := Exiting] && queue == []
      ensures listing == old(listing) && threadCount == old(threadCount) && aborted == old(aborted)
      ensures ui == old(ui) && published == old(published) && jobs == old(jobs)
    {
      LiveUpdate(workers, w, if queue != [] then Resolving(queue[0]) else Exiting);
      if queue != [] {
        assert queue[0] in jobs;
        workers := workers[w := Resolving(queue[0])];
        queue := queue[1..];
      } else {
        workers := workers[w := Exiting];
      }
    }

    /** `UpdateDisplayNameInList`. */
    method UpdateDisplayNameInList(index: nat, name: Option<string>)
      requires index < |listing.users|
      modifies this`listing
      ensures listing == PublishName(old(listing), index, name)
    {
      listing := PublishName(listing, index, name);
    }

    /** A worker whose lookup gave `name` checks the abort flag: if it is
        set the worker leaves its loop without publishing, otherwise it
        publishes the name and goes back for another job. */
    method Resolve(w: nat, name: Option<string>)
      requires Valid() && w < |workers| && workers[w].Resolving?
      modifies this
      ensures Valid()
      ensures old(aborted) ==> workers == old(workers)[w := Exiting] && listing == old(listing) && published == old(published)
      ensures !old(aborted) ==>
                && workers == old(workers)[w := Taking]
                && listing == PublishName(old(listing), old(workers)[w].job.index, name)
                && published == old(published) + 1
      ensures queue == old(queue) && threadCount == old(threadCount) && aborted == old(aborted) && ui == old(ui)
      ensures jobs == old(jobs)
    {
      var job := workers[w].job;
      LiveUpdate(workers, w, if aborted then Exiting else Taking);
      if aborted {
        workers := workers[w := Exiting];
      } else {
        UpdateDisplayNameInList(job.index, name);
        workers := workers[w := Taking];
        published := published + 1;
      }
    }

    /** `OnNameUpdateThreadTerminate`, called once by each worker as it
        ends: the count goes down and the interface is reset when it
        reaches zero. */
    method Terminate(w: nat)
      requires Valid() && w < |workers| && workers[w] == Exiting
      modifies this
      ensures Valid()
      ensures workers == old(workers)[w := Terminated]
      ensures threadCount == old(threadCount) - 1
      ensures ui == if threadCount == 0 then Normal else old(ui)
      ensures listing == old(listing) && queue == old(queue) && aborted == old(aborted) && published == old(published)
      ensures jobs == old(jobs)
    {
      LiveUpdate(workers, w, Terminated);
      workers := workers[w := Terminated];
      threadCount := threadCount - 1;
      if threadCount == 0 {
        ui := Normal;
      }
    }

    /** The cancel button: raises the abort flag only while workers run. */
    method Cancel()
      requires Valid()
      modifies this
      ensures Valid()
      ensures old(threadCount) > 0 ==> aborted && ui == Stopping
      ensures old(threadCount) == 0 ==> aborted == old(aborted) && ui == old(ui)
      ensures listing == old(listing) && queue == old(queue) && workers == old(workers)
      ensures threadCount == old(threadCount) && published == old(published) && jobs == old(jobs)
    {
      if threadCount > 0 {
        aborted := true;
        ui := Stopping;
      }
    }

    /** Closing the form raises the abort flag unconditionally. */
    method Close()
      requires Valid()
      modifies this`aborted
      ensures Valid()
      ensures aborted
    {
      aborted := true;
    }
  }

  /** Once every worker has terminated the count is zero and the interface
      is back to normal. */
  lemma {:induction false} AllTerminated(ws: seq<Worker>)
    requires forall w :: 0 <= w < |ws| ==> ws[w].Terminated?
    ensures Live(ws) == 0
  {
    if ws != [] {
      AllTerminated(ws[..|ws| - 1]);
    }
  }

  // ---------------------------------------------------------------------
  // The ignore list as text

  /** The values `parse` gives for the items it accepts. */
  function Collected(items: seq<string>, parse: string -> Option<Int32>): set<Int32> {
    if items == [] then {}
    else
      var rest := Collected(items[..|items| - 1], parse);
      match parse(items[|items| - 1])
      case Some(id) => rest + {id}
      case None => rest
  }

  lemma {:induction false} CollectedMembers(items: seq<string>, parse: string -> Option<Int32>, id: Int32)
    ensures id in Collected(items, parse) <==> exists i :: 0 <= i < |items| && parse(items[i]) == Some(id)
  {
    if items != [] {
      var init := items[..|items| - 1];
      CollectedMembers(init, parse, id);
      if exists i :: 0 <= i < |init| && parse(init[i]) == Some(id) {
        var i :| 0 <= i < |init| && parse(init[i]) == Some(id);
        assert items[i] == init[i];
      }
      if exists i :: 0 <= i < |items| && parse(items[i]) == Some(id) {
        var i :| 0 <= i < |items| && parse(items[i]) == Some(id);
        if i < |init| {
          assert init[i] == items[i];
        }
      }
    }
  }

  /** The ids among the item texts: the texts `int.TryParse` accepts. */
  function ParsedIds(items: seq<string>): set<Int32> {
    Collected(items, ParseInt32)
  }

  /** An id is in the set exactly when some item's text parses to it; items
      that do not parse are dropped. */
  lemma ParsedIdsMembers(items: seq<string>, id: Int32)
    ensures id in ParsedIds(items) <==> exists i :: 0 <= i < |items| && ParseInt32(items[i]) == Some(id)
  {
    CollectedMembers(items, ParseInt32, id);
  }

  /** The ignore-set loop of `SaveModifiables`. */
  method IgnoreSetFromItems(items: seq<string>) returns (ids: set<Int32>)
    ensures ids == ParsedIds(items)
  {
    ids := {};
    var i := 0;
    while i < |items|
      invariant 0 <= i <= |items|
      invariant ids == ParsedIds(items[..i])
    {
      assert items[..i + 1][..i] == items[..i];
      var parsed := ParseInt32(items[i]);
      if parsed.Some? {
        ids := ids + {parsed.value};
      }
      i := i + 1;
    }
    assert items[..|items|] == items;
  }

  // ---------------------------------------------------------------------
  // Selecting a user

  /** The position of the first record with this directory name, or
      `|users|` when there is none. */
  function FirstUser(users: seq<UserRecord>, dir: string): (k: nat)
    ensures k <= |users|
    ensures k < |users| ==> users[k].dirName == dir
    ensures forall j :: 0 <= j < k ==> users[j].dirName != dir
  {
    if users == [] then 0
    else if users[0].dirName == dir then 0
    else 1 + FirstUser(users[1..], dir)
  }

  /** `SelectUserInList(long)`: selects the first record whose directory
      name is the account's, and tells whether there was one; the selection
      is untouched otherwise. */
  method SelectUserById(l: Listing, accountId: Int64) returns (found: bool, r: Listing)
    ensures r.users == l.users
    ensures found <==> exists i :: 0 <= i < |l.users| && l.users[i].dirName == Id64ToDirName(accountId)
    ensures found ==> r.selected == FirstUser(l.users, Id64ToDirName(accountId))
    ensures !found ==> r == l
  {
    var dir := Id64ToDirName(accountId);
    var i := 0;
    while i < |l.users|
      invariant 0 <= i <= |l.users|
      invariant forall j :: 0 <= j < i ==> l.users[j].dirName != dir
    {
      if l.users[i].dirName == dir {
        return true, l.(selected := i);
      }
      i := i + 1;
    }
    return false, l;
  }

  /** `SelectUserInList(string)`: the same as the `long` overload for text
      that is a `long`; other text selects nothing. */
  method SelectUserByText(l: Listing, accountId: string) returns (found: bool, r: Listing)
    ensures ParseInt64(accountId).None? ==> !found && r == l
    ensures ParseInt64(accountId).Some? ==>
              (found <==> exists i :: 0 <= i < |l.users| &&
                            l.users[i].dirName == Id64ToDirName(ParseInt64(accountId).value))
    ensures ParseInt64(accountId).Some? && found ==>
              r.selected == FirstUser(l.users, Id64ToDirName(ParseInt64(accountId).value))
    ensures !found ==> r == l
    ensures r.users == l.users
  {
    var parsed := ParseInt64(accountId);
    if parsed.Some? {
      found, r := SelectUserById(l, parsed.value);
    } else {
      found, r := false, l;
    }
  }

  /** The user directory that selecting an account id looks for is the one
      whose name gives that id back. */
  lemma SelectedUserHasId(l: Listing, accountId: Int64)
    requires FirstUser(l.users, Id64ToDirName(accountId)) < |l.users|
    ensures DirNameToId64(l.users[FirstUser(l.users, Id64ToDirName(accountId))].dirName) == accountId
  {
    ProfileRoundTrip.Id64RoundTrip(accountId);
  }

  // ---------------------------------------------------------------------
  // The ignore-list sort order

  /** `IgnoreListViewItemComparer.Compare` as written: the difference of the
      two ids, computed in 32-bit `int` arithmetic, when both texts are ids;
      otherwise the culture-aware text comparison, an input here. */
  function CompareAsWritten(x: string, y: string, textCompare: (string, string) -> Int32): (r: Int32)
    ensures ParseInt32(x).None? || ParseInt32(y).None? ==> r == textCompare(x, y)
    ensures ParseInt32(x).Some? && ParseInt32(y).Some? ==>
              (r - (ParseInt32(x).value - ParseInt32(y).value)) % 0x1_0000_0000 == 0
  {
    match (ParseInt32(x), ParseInt32(y))
    case (Some(a), Some(b)) => Wrap32(a as int - b)
    case _ => textCompare(x, y)
  }

  /** The subtraction wraps: the smallest id compares as greater than 1. */
  lemma CompareAsWrittenOverflow(textCompare: (string, string) -> Int32)
    ensures Int32Min < 1
    ensures CompareAsWritten(ShowInt(Int32Min), ShowInt(1), textCompare) > 0
  {
    ParseShowInt32(Int32Min);
    ParseShowInt32(1);
    WrapBelowMin();
  }

  lemma WrapBelowMin()
    ensures Wrap32(Int32Min - 1) == Int32Max
  {
    assert -1 % 0x1_0000_0000 == 0xFFFF_FFFF;
  }

  /** The intended order: ids compare by value, the sign of the result
      telling which is smaller. */
  function CompareIds(x: string, y: string, textCompare: (string, string) -> Int32): (r: Int32) {
    match (ParseInt32(x), ParseInt32(y))
    case (Some(a), Some(b)) => if a < b then -1 else if a > b then 1 else 0
    case _ => textCompare(x, y)
  }

  /** Two id texts compare in the order of their values, whatever the
      values; so the comparison is antisymmetric on ids. */
  lemma CompareIdsOrder(x: string, y: string, textCompare: (string, string) -> Int32)
    requires ParseInt32(x).Some? && ParseInt32(y).Some?
    ensures CompareIds(x, y, textCompare) < 0 <==> ParseInt32(x).value < ParseInt32(y).value
    ensures CompareIds(x, y, textCompare) == 0 <==> ParseInt32(x).value == ParseInt32(y).value
    ensures CompareIds(x, y, textCompare) == -CompareIds(y, x, textCompare)
  {
  }

  /** The written comparison agrees with the intended one whenever the
      difference fits in an `int`. */
  lemma CompareAgreesWithoutOverflow(x: string, y: string, textCompare: (string, string) -> Int32)
    requires ParseInt32(x).Some? && ParseInt32(y).Some?
    requires Int32Min <= ParseInt32(x).value - ParseInt32(y).value <= Int32Max
    ensures CompareAsWritten(x, y, textCompare) < 0 <==> CompareIds(x, y, textCompare) < 0
    ensures CompareAsWritten(x, y, textCompare) == 0 <==> CompareIds(x, y, textCompare) == 0
  {
  }
}
