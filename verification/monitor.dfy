/** The reporting loop of the watcher: every fetched commit is classified
    with the given patterns and the default sensitive suffixes, and each
    risky one is reported, in the order the commits were fetched. */
module Monitor {
  import opened Wrappers
  import opened Rules
  import opened Analyzer

  /** One "risky commit" report: the commit's position in the fetched list
      and the reason its classification printed just before. */
  datatype Alert = Alert(position: nat, reason: Reason)

  /** The monitor never passes its own suffix list, so the defaults always apply. */
  predicate Risky(c: Commit, patterns: seq<string>)
  {
    Analyze(c, patterns, SensitiveFiles).Some?
  }

  /** The reports for `verdicts[from..]`: one per positive verdict. */
  function Collect(verdicts: seq<Option<Reason>>, from: nat): seq<Alert>
    requires from <= |verdicts|
    decreases |verdicts| - from
  {
    if from == |verdicts| then []
    else if verdicts[from].None? then Collect(verdicts, from + 1)
    else [Alert(from, verdicts[from].value)] + Collect(verdicts, from + 1)
  }

  /** Each report names a position at or after `from` together with its verdict. */
  lemma {:induction false} CollectReportsVerdicts(verdicts: seq<Option<Reason>>, from: nat)
    requires from <= |verdicts|
    decreases |verdicts| - from
    ensures forall k :: 0 <= k < |Collect(verdicts, from)| ==>
      && from <= Collect(verdicts, from)[k].position < |verdicts|
      && verdicts[Collect(verdicts, from)[k].position] == Some(Collect(verdicts, from)[k].reason)
  {
    if from < |verdicts| {
      CollectReportsVerdicts(verdicts, from + 1);
      var rest := Collect(verdicts, from + 1);
      var alerts := Collect(verdicts, from);
      if verdicts[from].Some? {
        assert alerts == [Alert(from, verdicts[from].value)] + rest;
        forall k | 0 < k < |alerts|
          ensures alerts[k] == rest[k - 1]
        {
        }
      }
    }
  }

  /** Reports come in strictly increasing position order. */
  lemma {:induction false} CollectIsOrdered(verdicts: seq<Option<Reason>>, from: nat)
    requires from <= |verdicts|
    decreases |verdicts| - from
    ensures forall k, l :: 0 <= k < l < |Collect(verdicts, from)| ==>
      Collect(verdicts, from)[k].position < Collect(verdicts, from)[l].position
  {
    if from < |verdicts| {
      CollectIsOrdered(verdicts, from + 1);
      CollectReportsVerdicts(verdicts, from + 1);
      var rest := Collect(verdicts, from + 1);
      var alerts := Collect(verdicts, from);
      if verdicts[from].Some? {
        assert alerts == [Alert(from, verdicts[from].value)] + rest;
        forall k, l | 0 <= k < l < |alerts|
          ensures alerts[k].position < alerts[l].position
        {
          assert alerts[l] == rest[l - 1];
          if k > 0 {
            assert alerts[k] == rest[k - 1];
          }
        }
      }
    }
  }

  /** Every positive verdict at or after `from` is reported. */
  lemma {:induction false} CollectIsComplete(verdicts: seq<Option<Reason>>, from: nat, i: int)
    requires from <= i < |verdicts| && verdicts[i].Some?
    decreases |verdicts| - from
    ensures exists k :: 0 <= k < |Collect(verdicts, from)| && Collect(verdicts, from)[k].position == i
  {
    var alerts := Collect(verdicts, from);
    if verdicts[from].Some? {
      assert alerts == [Alert(from, verdicts[from].value)] + Collect(verdicts, from + 1);
      if i == from {
        assert alerts[0].position == i;
      } else {
        CollectIsComplete(verdicts, from + 1, i);
        var rest := Collect(verdicts, from + 1);
        var k :| 0 <= k < |rest| && rest[k].position == i;
        assert alerts[k + 1].position == i;
      }
    } else {
      CollectIsComplete(verdicts, from + 1, i);
    }
  }

  /** The verdict of every fetched commit, in fetch order. */
  function Verdicts(commits: seq<Commit>, patterns: seq<string>): (vs: seq<Option<Reason>>)
    ensures |vs| == |commits|
    ensures forall i :: 0 <= i < |commits| ==> vs[i] == Analyze(commits[i], patterns, SensitiveFiles)
  {
    seq(|commits|, i requires 0 <= i < |commits| => Analyze(commits[i], patterns, SensitiveFiles))
  }

  /** `monitor_repository` after the fetch: the reports for the whole list.
      Every report names a fetched commit together with the reason its
      classification gave; reports follow fetch order, so none is repeated;
      every risky commit is reported. An empty list (as after a failed fetch)
      reports nothing. */
  function Reports(commits: seq<Commit>, patterns: seq<string>): (alerts: seq<Alert>)
    ensures forall k :: 0 <= k < |alerts| ==>
      && alerts[k].position < |commits|
      && Analyze(commits[alerts[k].position], patterns, SensitiveFiles) == Some(alerts[k].reason)
    ensures forall k, l :: 0 <= k < l < |alerts| ==> alerts[k].position < alerts[l].position
    ensures forall i :: 0 <= i < |commits| && Risky(commits[i], patterns) ==>
      exists k :: 0 <= k < |alerts| && alerts[k].position == i
  {
    var verdicts := Verdicts(commits, patterns);
    CollectReportsVerdicts(verdicts, 0);
    CollectIsOrdered(verdicts, 0);
    assert forall i :: 0 <= i < |commits| && Risky(commits[i], patterns) ==>
      exists k :: 0 <= k < |Collect(verdicts, 0)| && Collect(verdicts, 0)[k].position == i
    by {
      forall i | 0 <= i < |commits| && Risky(commits[i], patterns)
        ensures exists k :: 0 <= k < |Collect(verdicts, 0)| && Collect(verdicts, 0)[k].position == i
      {
        assert verdicts[i].Some?;
        CollectIsComplete(verdicts, 0, i);
      }
    }
    Collect(verdicts, 0)
  }

  /** The reported positions are exactly the risky ones, and no commit is reported twice. */
  lemma MonitorReportsExactlyRisky(commits: seq<Commit>, patterns: seq<string>, i: int)
    requires 0 <= i < |commits|
    ensures Risky(commits[i], patterns) <==> exists k :: 0 <= k < |Reports(commits, patterns)| && Reports(commits, patterns)[k].position == i
    ensures |Reports(commits, patterns)| <= |commits|
  {
    var alerts := Reports(commits, patterns);
    PositionsBounded(alerts, |commits|);
  }

  /** A strictly increasing list of positions below `n` has at most `n` entries. */
  lemma {:induction false} PositionsBounded(alerts: seq<Alert>, n: nat)
    requires forall k :: 0 <= k < |alerts| ==> alerts[k].position < n
    requires forall k, l :: 0 <= k < l < |alerts| ==> alerts[k].position < alerts[l].position
    ensures |alerts| <= n
  {
    if alerts != [] {
      var last := alerts[|alerts| - 1];
      var init := alerts[..|alerts| - 1];
      forall k | 0 <= k < |init|
        ensures init[k].position < last.position
      {
      }
      PositionsBounded(init, last.position);
    }
  }

  /** When no fetched commit carries file details, every report is a message hit. */
  lemma WithoutFileDetailsOnlyMessages(commits: seq<Commit>, patterns: seq<string>)
    requires forall i :: 0 <= i < |commits| ==> commits[i].files.None?
    ensures forall k :: 0 <= k < |Reports(commits, patterns)| ==> Reports(commits, patterns)[k].reason == MessagePattern
  {
    var alerts := Reports(commits, patterns);
    forall k | 0 <= k < |alerts|
      ensures alerts[k].reason == MessagePattern
    {
      NoFilesMeansMessageOnly(commits[alerts[k].position], patterns, SensitiveFiles);
    }
  }
}
