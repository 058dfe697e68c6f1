/**
 * What a sequence of `create_file` calls does to the pallet's storage: the
 * runtime dispatches calls one at a time, each on the storage the previous
 * one left behind.
 */
module FileStorageTraces {
  import opened FileStorage

  /** The result of each call, in order, and the final storage. */
  datatype Trace = Trace(results: seq<DispatchResult>, post: Storage)

  /** Dispatch `calls` in order, starting from `s`. */
  function Run(cfg: Config, s: Storage, calls: seq<Call>): (t: Trace)
    ensures |t.results| == |calls|
    decreases |calls|
  {
    if calls == [] then Trace([], s)
    else
      var o := CreateFileStep(cfg, s, calls[0]);
      var t := Run(cfg, o.post, calls[1..]);
      Trace([o.result] + t.results, t.post)
  }

  /** The number of successful calls. */
  function OkCount(rs: seq<DispatchResult>): (n: nat)
    ensures n <= |rs|
  {
    if rs == [] then 0 else (if rs[0].Ok? then 1 else 0) + OkCount(rs[1..])
  }

  /** The storage bounds hold in every reachable state. */
  lemma {:induction false} RunPreservesWellFormed(cfg: Config, s: Storage, calls: seq<Call>)
    requires WellFormed(cfg, s)
    ensures WellFormed(cfg, Run(cfg, s, calls).post)
    decreases |calls|
  {
    if calls != [] {
      StepKeepsWellFormed(cfg, s, calls[0]);
      RunPreservesWellFormed(cfg, CreateFileStep(cfg, s, calls[0]).post, calls[1..]);
    }
  }

  /** Every successful call adds exactly one file and one event; failed calls
      add neither. This holds for runs of any length. */
  lemma {:induction false} RunCountsFilesAndEvents(cfg: Config, s: Storage, calls: seq<Call>)
    ensures var t := Run(cfg, s, calls);
            && |t.post.files| == |s.files| + OkCount(t.results)
            && |t.post.events| == |s.events| + OkCount(t.results)
    decreases |calls|
  {
    if calls != [] {
      var o := CreateFileStep(cfg, s, calls[0]);
      if o.result.Ok? {
        assert |o.post.files.Keys| == |s.files.Keys| + 1;
      }
      RunCountsFilesAndEvents(cfg, o.post, calls[1..]);
      var t := Run(cfg, o.post, calls[1..]);
      assert Run(cfg, s, calls).results == [o.result] + t.results;
      assert ([o.result] + t.results)[1..] == t.results;
    }
  }

  /** Every successful call adds one to the counter; failed calls leave it.
      Stated while the counter cannot wrap. */
  lemma {:induction false} RunCountsSuccesses(cfg: Config, s: Storage, calls: seq<Call>)
    requires s.fileCnt as int + |calls| <= U64_MAX
    ensures var t := Run(cfg, s, calls);
            t.post.fileCnt as int == s.fileCnt as int + OkCount(t.results)
    decreases |calls|
  {
    if calls != [] {
      var o := CreateFileStep(cfg, s, calls[0]);
      RunCountsSuccesses(cfg, o.post, calls[1..]);
      var t := Run(cfg, o.post, calls[1..]);
      assert Run(cfg, s, calls).results == [o.result] + t.results;
      assert ([o.result] + t.results)[1..] == t.results;
    }
  }

  /** From genesis, the counter equals both the number of successful calls and
      the number of stored files. */
  lemma GenesisCounterMatchesFiles(cfg: Config, calls: seq<Call>)
    requires |calls| <= U64_MAX
    ensures var t := Run(cfg, Genesis(), calls);
            && t.post.fileCnt as int == OkCount(t.results)
            && |t.post.files| == t.post.fileCnt as int
  {
    RunCountsSuccesses(cfg, Genesis(), calls);
    RunCountsFilesAndEvents(cfg, Genesis(), calls);
  }

  /** Once registered, a file stays registered with the same record: nothing
      overwrites or removes an entry of `files`. */
  lemma {:induction false} RunKeepsRegistered(cfg: Config, s: Storage, calls: seq<Call>, cid: Hash)
    requires cid in s.files
    ensures cid in Run(cfg, s, calls).post.files
    ensures Run(cfg, s, calls).post.files[cid] == s.files[cid]
    decreases |calls|
  {
    if calls != [] {
      RunKeepsRegistered(cfg, CreateFileStep(cfg, s, calls[0]).post, calls[1..], cid);
    }
  }

  /** No sequence of calls writes the ownership index or the download counters. */
  lemma {:induction false} RunLeavesSideIndices(cfg: Config, s: Storage, calls: seq<Call>)
    ensures Run(cfg, s, calls).post.filesOwned == s.filesOwned
    ensures Run(cfg, s, calls).post.cntFileDownloaded == s.cntFileDownloaded
    decreases |calls|
  {
    if calls != [] {
      RunLeavesSideIndices(cfg, CreateFileStep(cfg, s, calls[0]).post, calls[1..]);
    }
  }

  /** Every file added by a run was stored by a successful call with that
      content id, holding exactly that call's record. */
  lemma {:induction false} RunNewFilesComeFromCalls(cfg: Config, s: Storage, calls: seq<Call>, cid: Hash)
    requires cid in Run(cfg, s, calls).post.files && cid !in s.files
    ensures exists i :: 0 <= i < |calls| && Run(cfg, s, calls).results[i].Ok? && calls[i].cid == cid
                        && Run(cfg, s, calls).post.files[cid] == NewFile(calls[i])
    decreases |calls|
  {
    var o := CreateFileStep(cfg, s, calls[0]);
    var t := Run(cfg, o.post, calls[1..]);
    assert Run(cfg, s, calls).results == [o.result] + t.results;
    if o.result.Ok? && calls[0].cid == cid {
      RunKeepsRegistered(cfg, o.post, calls[1..], cid);
      assert Run(cfg, s, calls).results[0].Ok?;
    } else {
      assert cid !in o.post.files;
      RunNewFilesComeFromCalls(cfg, o.post, calls[1..], cid);
      var i :| 0 <= i < |calls[1..]| && t.results[i].Ok? && calls[1..][i].cid == cid
                && t.post.files[cid] == NewFile(calls[1..][i]);
      assert Run(cfg, s, calls).results[i + 1] == t.results[i];
    }
  }

  /** A content id registered once is rejected by every later registration,
      whatever came in between, and the rejection changes nothing. */
  lemma DuplicateRejectedForever(cfg: Config, s: Storage, c: Call, between: seq<Call>, again: Call)
    requires CreateFileStep(cfg, s, c).result.Ok?
    requires again.cid == c.cid
    ensures var mid := Run(cfg, CreateFileStep(cfg, s, c).post, between).post;
            CreateFileStep(cfg, mid, again) == Outcome(Err(AlreadyUploaded), mid)
  {
    RunKeepsRegistered(cfg, CreateFileStep(cfg, s, c).post, between, c.cid);
  }

  /** The pallet object, used as the runtime uses it: a second registration of
      the same content id, even by another account, is rejected. */
  method RegisterTwice(alice: AccountId, bob: AccountId, cid: Hash) returns (first: DispatchResult, second: DispatchResult)
    ensures first == Ok
    ensures second == Err(AlreadyUploaded)
  {
    var pallet := new Pallet(10, 5, 100);
    var link: seq<u8> := [105, 112, 102, 115, 58, 47, 47, 97, 98, 99];
    first := pallet.CreateFile(alice, cid, Some(100), None, link, true, 500);
    assert pallet.Files(cid) == Some(File(Some(100), alice, Other, link, true, 500));
    second := pallet.CreateFile(bob, cid, None, Some(Pdf), link, false, 1);
  }
}
