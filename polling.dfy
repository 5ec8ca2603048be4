/** One pass of the polling service over the tracked changes: query every
    change that is not merged, replace the entries whose result differs
    (with the asymmetric rule for failed requests), drop failed entries,
    write the list back, surface the updates to the popup or as a
    notification, and ask for the service to stop once every change is
    merged or abandoned. */
module Polling {
  import opened Records
  import opened Lists
  import Text
  import Storage
  import Gerrit

  /** What the browser tells the cycle: whether a popup view is open, the
      notification title and the localised message with its `%`. */
  datatype Browser = Browser(popupOpen: bool, title: string, template: string)

  /** The storage after a cycle and the side effects it had, in order. */
  datatype Outcome = Outcome(state: Storage.Snapshot, log: seq<Effect>)

  const Merged: string := "MERGED"
  const Abandoned: string := "ABANDONED"

  /** Only merged changes are skipped; abandoned ones are still queried. */
  predicate Queried(c: Change) {
    c.status != Some(Merged)
  }

  predicate Terminal(c: Change) {
    c.status == Some(Merged) || c.status == Some(Abandoned)
  }

  predicate AllTerminal(cs: seq<Change>) {
    forall i :: 0 <= i < |cs| ==> Terminal(cs[i])
  }

  /** The entries lodash `remove(changes, c => c.error === true)` leaves. */
  predicate Survives(c: Change) {
    c.error != Some(true)
  }

  /** The copy of a result that is reported as updated. */
  function Marked(c: Change): Change {
    c.(updated := Some(true))
  }

  /** Whether a query result replaces the entry: a failed request only
      evicts an entry that never had a subject and a status; a result
      without an `error` key replaces an entry it differs from. */
  predicate Replaces(elem: Change, result: Change)
    ensures Survives(elem) && Replaces(elem, result) ==> result != elem
    ensures !Storage.IsChangeEmpty(elem) && result.error.Some? ==> !Replaces(elem, result)
  {
    || (result.error == Some(true) && Storage.IsChangeEmpty(elem))
    || (result.error.None? && result != elem)
  }

  /** What one iteration of the loop does with an entry it queries. */
  datatype Visit = Threw(fault: Fault) | Unchanged | Replaced(result: Change)

  /** The query of one entry and the comparison with its answer: the
      query's exception is passed on, and the answer replaces the entry
      exactly when the replacement rule holds. */
  function VisitOf(o: Options, c: Change, remote: Gerrit.Remote): (v: Visit)
    ensures v.Replaced? ==> Replaces(c, v.result)
    ensures var q := Gerrit.Query(o, c.id, remote);
      && (v.Threw? <==> q.Err?)
      && (q.Err? ==> v == Threw(q.fault))
      && (q.Ok? && Replaces(c, q.value) ==> v == Replaced(q.value))
      && (q.Ok? && !Replaces(c, q.value) ==> v == Unchanged)
  {
    var q := Gerrit.Query(o, c.id, remote);
    if q.Err? then Threw(q.fault)
    else if Replaces(c, q.value) then Replaced(q.value)
    else Unchanged
  }

  /** The visit of every entry against one server and one set of options. */
  function Visitor(o: Options, remote: Gerrit.Remote): Change -> Visit {
    (c: Change) => VisitOf(o, c, remote)
  }

  /** The result that replaces `c`, if any: merged entries are not queried,
      and a query that throws replaces nothing. */
  function Replacement(visit: Change -> Visit, c: Change): (r: Option<Change>)
    ensures !Queried(c) || visit(c).Threw? || visit(c).Unchanged? ==> r.None?
    ensures r.Some? ==> Queried(c) && visit(c) == Replaced(r.value)
  {
    if Queried(c) && visit(c).Replaced? then Some(visit(c).result) else None
  }

  /** A failed request evicts an entry only when the entry never had both a
      subject and a status; otherwise the entry is kept as it is. */
  lemma FailedRequestEvictsOnlyEmpty(o: Options, c: Change, remote: Gerrit.Remote)
    requires c.id.Some?
    requires remote.reply(Gerrit.QueryUrl(o.endpoint, c.id)).Thrown?
    ensures Storage.IsChangeEmpty(c) ==> VisitOf(o, c, remote) == Replaced(ErrorEntry(c.id.value))
    ensures !Storage.IsChangeEmpty(c) ==> VisitOf(o, c, remote) == Unchanged
  {
  }

  /** A resolved reply whose status is not 200 (another 2xx status) yields
      `{}`, which has no `error` key and so replaces every entry that is not
      already `{}`. */
  lemma OtherStatusBlanks(o: Options, c: Change, remote: Gerrit.Remote)
    requires c != Blank
    requires remote.reply(Gerrit.QueryUrl(o.endpoint, c.id)).Reply?
    requires remote.reply(Gerrit.QueryUrl(o.endpoint, c.id)).status != 200
    ensures VisitOf(o, c, remote) == Replaced(Blank)
  {
  }

  /** A server that answers with the entry as stored causes no update. */
  lemma SameAnswerNoUpdate(c: Change)
    requires Survives(c)
    ensures !Replaces(c, c)
    ensures forall r: Change :: r.error.None? && r != c ==> Replaces(c, r)
  {
  }

  /* --------------------------- the loop, stepwise --------------------------- */

  /** The loop's state after its first `n` iterations: the list with the
      replacements made so far, the updated copies, the requests issued, and
      the exception that ended the loop, if one did. */
  datatype Sweep = Sweep(changes: seq<Change>, updated: seq<Change>, trace: seq<Effect>, fault: Option<Fault>)

  function SweepUpTo(o: Options, cs: seq<Change>, visit: Change -> Visit, n: nat): (sw: Sweep)
    requires n <= |cs|
    ensures |sw.changes| == |cs|
    ensures forall i :: 0 <= i < |sw.trace| ==> sw.trace[i].Request?
    decreases n
  {
    if n == 0 then Sweep(cs, [], [], None)
    else
      var sw := SweepUpTo(o, cs, visit, n - 1);
      var elem := cs[n - 1];
      if sw.fault.Some? || !Queried(elem) then sw
      else
        var trace := sw.trace + [Request(Gerrit.QueryUrl(o.endpoint, elem.id))];
        match visit(elem)
        case Threw(f) => sw.(trace := trace, fault := Some(f))
        case Unchanged => sw.(trace := trace)
        case Replaced(r) => Sweep(sw.changes[n - 1 := r], sw.updated + [Marked(r)], trace, None)
  }

  /* ------------------- the loop's effect, entry by entry ------------------- */

  /** The request for each entry of `cs`, in order. */
  function Requests(o: Options, cs: seq<Change>): (r: seq<Effect>)
    ensures |r| == |cs|
    ensures forall i :: 0 <= i < |cs| ==> r[i] == Request(Gerrit.QueryUrl(o.endpoint, cs[i].id))
  {
    seq(|cs|, i requires 0 <= i < |cs| => Request(Gerrit.QueryUrl(o.endpoint, cs[i].id)))
  }

  /** The list where each of the first `n` entries is replaced by its
      replacement, if it has one, and every other entry is kept in place. */
  function Refreshed(cs: seq<Change>, visit: Change -> Visit, n: nat): (r: seq<Change>)
    ensures |r| == |cs|
    ensures forall i :: 0 <= i < |cs| ==>
      r[i] == (if i < n && Replacement(visit, cs[i]).Some? then Replacement(visit, cs[i]).value else cs[i])
  {
    seq(|cs|, i requires 0 <= i < |cs| =>
      if i < n && Replacement(visit, cs[i]).Some? then Replacement(visit, cs[i]).value else cs[i])
  }

  /** The updated copies of the replacements among `cs`, in list order: at
      most one per entry, each flagged `updated`, none without a replacement. */
  function Updates(cs: seq<Change>, visit: Change -> Visit): (r: seq<Change>)
    ensures |r| <= |cs|
    ensures forall i :: 0 <= i < |r| ==> r[i].updated == Some(true)
    ensures (forall i :: 0 <= i < |cs| ==> Replacement(visit, cs[i]).None?) ==> r == []
    decreases |cs|
  {
    if cs == [] then []
    else
      var r := Replacement(visit, cs[0]);
      (if r.Some? then [Marked(r.value)] else []) + Updates(cs[1..], visit)
  }

  lemma {:induction false} UpdatesAppend(a: seq<Change>, b: seq<Change>, visit: Change -> Visit)
    ensures Updates(a + b, visit) == Updates(a, visit) + Updates(b, visit)
    decreases |a|
  {
    if a == [] {
      assert a + b == b;
    } else {
      var head := Replacement(visit, a[0]);
      var first := if head.Some? then [Marked(head.value)] else [];
      assert (a + b)[0] == a[0];
      assert (a + b)[1..] == a[1..] + b;
      UpdatesAppend(a[1..], b, visit);
      calc {
        Updates(a + b, visit);
        first + Updates(a[1..] + b, visit);
        first + (Updates(a[1..], visit) + Updates(b, visit));
        (first + Updates(a[1..], visit)) + Updates(b, visit);
      }
    }
  }

  /** Once the loop has thrown, later iterations never run. */
  lemma {:induction false} SweepFaultSticks(o: Options, cs: seq<Change>, visit: Change -> Visit, i: nat, n: nat)
    requires i <= n <= |cs|
    requires SweepUpTo(o, cs, visit, i).fault.Some?
    ensures SweepUpTo(o, cs, visit, n) == SweepUpTo(o, cs, visit, i)
    decreases n
  {
    if n > i {
      SweepFaultSticks(o, cs, visit, i, n - 1);
    }
  }

  /** One iteration adds the entry's request, unless the loop has already
      thrown or the entry is merged. */
  lemma SweepTraceStep(o: Options, cs: seq<Change>, visit: Change -> Visit, n: nat)
    requires 0 < n <= |cs|
    ensures var prev := SweepUpTo(o, cs, visit, n - 1);
      SweepUpTo(o, cs, visit, n).trace
        == prev.trace + (if prev.fault.None? && Queried(cs[n - 1])
                         then [Request(Gerrit.QueryUrl(o.endpoint, cs[n - 1].id))] else [])
    ensures SweepUpTo(o, cs, visit, n).fault.None? ==> SweepUpTo(o, cs, visit, n - 1).fault.None?
  {
  }

  /** The requests for the entries of `a + [x]` that are queried. */
  lemma QueriedRequestsSnoc(o: Options, a: seq<Change>, x: Change)
    ensures Requests(o, Filter(a + [x], Queried))
         == Requests(o, Filter(a, Queried)) + (if Queried(x) then [Request(Gerrit.QueryUrl(o.endpoint, x.id))] else [])
  {
    FilterAppend(a, [x], Queried);
    assert [x][1..] == [];
    var before := Filter(a, Queried);
    if Queried(x) {
      assert Filter([x], Queried) == [x];
    } else {
      assert Filter([x], Queried) == [];
      assert before + [] == before;
    }
  }

  /** Merged entries are never queried: the loop issues the requests for the
      entries that are not merged, in order, and stops early only on an
      exception. */
  lemma {:induction false} SweepRequests(o: Options, cs: seq<Change>, visit: Change -> Visit, n: nat)
    requires n <= |cs|
    ensures SweepUpTo(o, cs, visit, n).trace <= Requests(o, Filter(cs[..n], Queried))
    ensures SweepUpTo(o, cs, visit, n).fault.None? ==>
      SweepUpTo(o, cs, visit, n).trace == Requests(o, Filter(cs[..n], Queried))
    decreases n
  {
    if n > 0 {
      SweepRequests(o, cs, visit, n - 1);
      SweepTraceStep(o, cs, visit, n);
      assert cs[..n] == cs[..n - 1] + [cs[n - 1]];
      QueriedRequestsSnoc(o, cs[..n - 1], cs[n - 1]);
    }
  }

  /** A loop that has not thrown after `k` iterations met no queried entry
      whose query throws. */
  lemma {:induction false} SweepNoFaultNoThrow(o: Options, cs: seq<Change>, visit: Change -> Visit, k: nat)
    requires k <= |cs|
    requires SweepUpTo(o, cs, visit, k).fault.None?
    ensures forall j :: 0 <= j < k && Queried(cs[j]) ==> !visit(cs[j]).Threw?
    decreases k
  {
    if k > 0 {
      SweepTraceStep(o, cs, visit, k);
      SweepNoFaultNoThrow(o, cs, visit, k - 1);
    }
  }

  /** A loop that threw stopped at one entry `k`: a queried entry whose query
      threw, after no earlier queried entry threw. Its requests are exactly
      those of the queried entries up to and including `k`. */
  lemma {:induction false} SweepThrowsAt(o: Options, cs: seq<Change>, visit: Change -> Visit, n: nat)
      returns (k: nat)
    requires n <= |cs|
    requires SweepUpTo(o, cs, visit, n).fault.Some?
    ensures k < n
    ensures Queried(cs[k]) && visit(cs[k]) == Threw(SweepUpTo(o, cs, visit, n).fault.value)
    ensures forall j :: 0 <= j < k && Queried(cs[j]) ==> !visit(cs[j]).Threw?
    ensures SweepUpTo(o, cs, visit, n).trace == Requests(o, Filter(cs[..k + 1], Queried))
    decreases n
  {
    if SweepUpTo(o, cs, visit, n - 1).fault.Some? {
      k := SweepThrowsAt(o, cs, visit, n - 1);
      SweepFaultSticks(o, cs, visit, n - 1, n);
    } else {
      k := n - 1;
      SweepNoFaultNoThrow(o, cs, visit, k);
      SweepThrowsLast(o, cs, visit, n);
    }
  }

  /** The iteration that throws issues its entry's request and stops. */
  lemma SweepThrowsLast(o: Options, cs: seq<Change>, visit: Change -> Visit, n: nat)
    requires 0 < n <= |cs|
    requires SweepUpTo(o, cs, visit, n - 1).fault.None?
    requires SweepUpTo(o, cs, visit, n).fault.Some?
    ensures Queried(cs[n - 1]) && visit(cs[n - 1]) == Threw(SweepUpTo(o, cs, visit, n).fault.value)
    ensures SweepUpTo(o, cs, visit, n).trace == Requests(o, Filter(cs[..n], Queried))
  {
    SweepRequests(o, cs, visit, n - 1);
    SweepTraceStep(o, cs, visit, n);
    assert cs[..n] == cs[..n - 1] + [cs[n - 1]];
    QueriedRequestsSnoc(o, cs[..n - 1], cs[n - 1]);
  }

  /** One iteration that does not throw replaces the entry in place when it
      has a replacement, and appends its marked copy to the updates. */
  lemma SweepReplaceStep(o: Options, cs: seq<Change>, visit: Change -> Visit, n: nat)
    requires 0 < n <= |cs|
    requires SweepUpTo(o, cs, visit, n).fault.None?
    ensures var prev := SweepUpTo(o, cs, visit, n - 1);
      var next := SweepUpTo(o, cs, visit, n);
      var r := Replacement(visit, cs[n - 1]);
      && prev.fault.None?
      && next.changes == (if r.Some? then prev.changes[n - 1 := r.value] else prev.changes)
      && next.updated == prev.updated + (if r.Some? then [Marked(r.value)] else [])
  {
  }

  /** Replacement is by position: each entry is overwritten by its
      replacement, if it has one, and otherwise kept where it is. */
  lemma {:induction false} SweepRefreshes(o: Options, cs: seq<Change>, visit: Change -> Visit, n: nat)
    requires n <= |cs|
    requires SweepUpTo(o, cs, visit, n).fault.None?
    ensures SweepUpTo(o, cs, visit, n).changes == Refreshed(cs, visit, n)
    decreases n
  {
    if n == 0 {
      assert Refreshed(cs, visit, 0) == cs;
    } else {
      SweepReplaceStep(o, cs, visit, n);
      SweepRefreshes(o, cs, visit, n - 1);
    }
  }

  /** The updated list holds exactly the replacing results, marked, in
      list order. */
  lemma {:induction false} SweepUpdates(o: Options, cs: seq<Change>, visit: Change -> Visit, n: nat)
    requires n <= |cs|
    requires SweepUpTo(o, cs, visit, n).fault.None?
    ensures SweepUpTo(o, cs, visit, n).updated == Updates(cs[..n], visit)
    decreases n
  {
    if n > 0 {
      SweepReplaceStep(o, cs, visit, n);
      SweepUpdates(o, cs, visit, n - 1);
      assert cs[..n] == cs[..n - 1] + [cs[n - 1]];
      UpdatesAppend(cs[..n - 1], [cs[n - 1]], visit);
      assert [cs[n - 1]][1..] == [];
    }
  }

  /** Both of the above. */
  lemma SweepReplacesInPlace(o: Options, cs: seq<Change>, visit: Change -> Visit, n: nat)
    requires n <= |cs|
    requires SweepUpTo(o, cs, visit, n).fault.None?
    ensures SweepUpTo(o, cs, visit, n).changes == Refreshed(cs, visit, n)
    ensures SweepUpTo(o, cs, visit, n).updated == Updates(cs[..n], visit)
  {
    SweepRefreshes(o, cs, visit, n);
    SweepUpdates(o, cs, visit, n);
  }

  /** Without updates nothing was replaced: the list is the one that was read. */
  lemma NoUpdatesNoChange(o: Options, cs: seq<Change>, visit: Change -> Visit, n: nat)
    requires n <= |cs|
    requires SweepUpTo(o, cs, visit, n).fault.None?
    requires SweepUpTo(o, cs, visit, n).updated == []
    ensures SweepUpTo(o, cs, visit, n).changes == cs
  {
    SweepReplacesInPlace(o, cs, visit, n);
    forall i | 0 <= i < n ensures Replacement(visit, cs[i]).None? {
      UpdatesNoneReplaced(cs[..n], visit, i);
    }
  }

  lemma {:induction false} UpdatesNoneReplaced(cs: seq<Change>, visit: Change -> Visit, i: nat)
    requires i < |cs|
    requires Updates(cs, visit) == []
    ensures Replacement(visit, cs[i]).None?
    decreases |cs|
  {
    if i > 0 {
      UpdatesNoneReplaced(cs[1..], visit, i - 1);
    }
  }

  /* ------------------------------- the cycle ------------------------------- */

  /** The notification text: the count put in place of the first `%`, and an
      `s` appended when the count is above one. */
  function NotificationText(template: string, count: nat): string {
    Text.ReplaceFirst(template, "%", Text.Decimal(count)) + (if count > 1 then "s" else "")
  }

  /** A template `a%b` gives `a<count>b`, plural when the count is above one. */
  lemma NotificationOfTemplate(a: string, b: string, count: nat)
    requires '%' !in a
    ensures NotificationText(a + "%" + b, count) == a + Text.Decimal(count) + b + (if count > 1 then "s" else "")
  {
    var s := a + "%" + b;
    assert Text.OccursAt(s, "%", |a|) by {
      assert s[|a|..|a| + 1] == "%";
    }
    forall j | 0 <= j < |a| ensures !Text.OccursAt(s, "%", j) {
      assert s[j] == a[j];
    }
    Text.ReplaceFirstAt(s, "%", Text.Decimal(count), |a|);
    assert s[..|a|] == a && s[|a| + 1..] == b;
  }

  /** The stop at the end of a cycle: called exactly when every entry is
      merged or abandoned, which includes an empty list. */
  function StopIfIdle(cs: seq<Change>): (r: seq<Effect>)
    ensures r == [StopCalled] || r == []
    ensures r == [StopCalled] <==>
      forall i :: 0 <= i < |cs| ==> cs[i].status == Some(Merged) || cs[i].status == Some(Abandoned)
    ensures cs == [] ==> r == [StopCalled]
  {
    if AllTerminal(cs) then [StopCalled] else []
  }

  /** What the cycle does after a loop that did not throw. */
  function Publish(st: Storage.Snapshot, sw: Sweep, b: Browser): Outcome {
    if |sw.updated| == 0 then Outcome(st, sw.trace + StopIfIdle(sw.changes))
    else
      var kept := Filter(sw.changes, Survives);
      var saved := st.(changes := Some(kept));
      var n := |sw.updated|;
      if b.popupOpen then
        Outcome(saved, sw.trace + [SendUpdate(sw.updated)] + StopIfIdle(kept))
      else
        Outcome(saved.(updated := Some(sw.updated)),
                sw.trace + [Badge(Text.Decimal(n)), Notify(b.title, NotificationText(b.template, n))]
                + StopIfIdle(kept))
  }

  /** The options are complete: `isConfigSet` returns true. */
  predicate Configured(st: Storage.Snapshot) {
    Storage.ConfigCheck(Storage.OptionsOf(st)) == Ok(true)
  }

  /** The whole loop over the stored list. */
  function Swept(st: Storage.Snapshot, remote: Gerrit.Remote): Sweep {
    var cs := Storage.ChangesOf(st);
    SweepUpTo(Storage.OptionsOf(st), cs, Visitor(Storage.OptionsOf(st), remote), |cs|)
  }

  /** `run(restart, restartService, stopService)` as a function of the
      storage it reads, the flag it was given, the browser and the server. */
  function RunSpec(st: Storage.Snapshot, restart: bool, b: Browser, remote: Gerrit.Remote): (out: Outcome)
    ensures !restart ==> RestartCalled !in out.log
    ensures out.state.options == st.options
  {
    var config := Storage.ConfigCheck(Storage.OptionsOf(st));
    if config.Err? then Outcome(st, [Rejected(config.fault)])
    else if !config.value then Outcome(st, [StopCalled])
    else if restart then Outcome(st, [RestartCalled])
    else
      var sw := Swept(st, remote);
      if sw.fault.Some? then Outcome(st, sw.trace + [Rejected(sw.fault.value)])
      else
        var out := Publish(st, sw, b);
        assert RestartCalled !in out.log by {
          assert forall i :: 0 <= i < |sw.trace| ==> sw.trace[i] != RestartCalled;
        }
        out
  }

  /* ------------------------- what a cycle amounts to ------------------------- */

  /** A cycle whose queries all answer: every entry that is not merged is
      requested once, in order; each replaced entry is overwritten in place
      and failed entries are dropped before the list is written back; with
      no update, storage is left as it was. The updates go to an open popup,
      or else into the pending buffer with the badge and a notification
      showing their number. The stop callback runs exactly when every entry
      of the resulting list is merged or abandoned. */
  lemma RunCompleted(st: Storage.Snapshot, b: Browser, remote: Gerrit.Remote)
    requires Configured(st)
    requires Swept(st, remote).fault.None?
    ensures
      var o := Storage.OptionsOf(st);
      var cs := Storage.ChangesOf(st);
      var ups := Updates(cs, Visitor(o, remote));
      var kept := Filter(Refreshed(cs, Visitor(o, remote), |cs|), Survives);
      var requests := Requests(o, Filter(cs, Queried));
      var out := RunSpec(st, false, b, remote);
      && (ups == [] ==>
            out == Outcome(st, requests + StopIfIdle(cs)))
      && (ups != [] && b.popupOpen ==>
            out == Outcome(st.(changes := Some(kept)), requests + [SendUpdate(ups)] + StopIfIdle(kept)))
      && (ups != [] && !b.popupOpen ==>
            out == Outcome(st.(changes := Some(kept), updated := Some(ups)),
                           requests + [Badge(Text.Decimal(|ups|)), Notify(b.title, NotificationText(b.template, |ups|))]
                           + StopIfIdle(kept)))
  {
    var o := Storage.OptionsOf(st);
    var cs := Storage.ChangesOf(st);
    SweepRequests(o, cs, Visitor(o, remote), |cs|);
    SweepReplacesInPlace(o, cs, Visitor(o, remote), |cs|);
    assert cs[..|cs|] == cs;
    if Updates(cs, Visitor(o, remote)) == [] {
      NoUpdatesNoChange(o, cs, Visitor(o, remote), |cs|);
    }
  }

  /** A cycle that reaches the loop and throws in it leaves storage alone.
      It stopped at the first queried entry whose query threw: its log is the
      requests of the queried entries up to and including that one, then the
      rejection with that entry's fault. */
  lemma RunThrew(st: Storage.Snapshot, b: Browser, remote: Gerrit.Remote)
    requires Configured(st)
    requires Swept(st, remote).fault.Some?
    ensures
      var cs := Storage.ChangesOf(st);
      var out := RunSpec(st, false, b, remote);
      && out.state == st
      && |out.log| > 0
      && out.log[|out.log| - 1] == Rejected(Swept(st, remote).fault.value)
      && out.log[..|out.log| - 1] <= Requests(Storage.OptionsOf(st), Filter(cs, Queried))
    ensures
      var cs := Storage.ChangesOf(st);
      var o := Storage.OptionsOf(st);
      var fault := Swept(st, remote).fault.value;
      exists k :: (0 <= k < |cs|
        && Queried(cs[k]) && VisitOf(o, cs[k], remote) == Threw(fault)
        && (forall j :: 0 <= j < k && Queried(cs[j]) ==> !VisitOf(o, cs[j], remote).Threw?)
        && RunSpec(st, false, b, remote).log == Requests(o, Filter(cs[..k + 1], Queried)) + [Rejected(fault)])
  {
    var cs := Storage.ChangesOf(st);
    var o := Storage.OptionsOf(st);
    var out := RunSpec(st, false, b, remote);
    var sw := Swept(st, remote);
    assert out == Outcome(st, sw.trace + [Rejected(sw.fault.value)]);
    assert out.log[..|out.log| - 1] == sw.trace;
    SweepRequests(o, cs, Visitor(o, remote), |cs|);
    assert cs[..|cs|] == cs;
    var k := SweepThrowsAt(o, cs, Visitor(o, remote), |cs|);
    assert VisitOf(o, cs[k], remote) == Threw(sw.fault.value);
  }

  /** Incomplete options stop the service, or reject on an unset field,
      before anything is read or requested; a restart request defers to the
      restart without polling. */
  lemma RunWithoutPolling(st: Storage.Snapshot, restart: bool, b: Browser, remote: Gerrit.Remote)
    requires !Configured(st) || restart
    ensures var out := RunSpec(st, restart, b, remote);
      && out.state == st
      && |out.log| == 1
      && (out.log[0] == RestartCalled <==> Configured(st))
      && (out.log[0] == StopCalled <==> Storage.ConfigCheck(Storage.OptionsOf(st)) == Ok(false))
      && (out.log[0].Rejected? <==> Storage.ConfigCheck(Storage.OptionsOf(st)).Err?)
  {
  }

  /** The list in storage never holds a failed entry after a cycle that
      started from such a list. */
  lemma RunStoresNoFailed(st: Storage.Snapshot, restart: bool, b: Browser, remote: Gerrit.Remote)
    requires forall i :: 0 <= i < |Storage.ChangesOf(st)| ==> Survives(Storage.ChangesOf(st)[i])
    ensures var saved := Storage.ChangesOf(RunSpec(st, restart, b, remote).state);
      forall i :: 0 <= i < |saved| ==> Survives(saved[i])
  {
    if Configured(st) && !restart && Swept(st, remote).fault.None? {
      RunCompleted(st, b, remote);
    }
  }

  /** A cycle never reorders the list: what it writes back is the refreshed
      list with some entries taken out. */
  lemma RunKeepsOrder(st: Storage.Snapshot, b: Browser, remote: Gerrit.Remote)
    requires Configured(st)
    requires Swept(st, remote).fault.None?
    ensures var o := Storage.OptionsOf(st);
      var cs := Storage.ChangesOf(st);
      Embeds(Storage.ChangesOf(RunSpec(st, false, b, remote).state), Refreshed(cs, Visitor(o, remote), |cs|))
  {
    var o := Storage.OptionsOf(st);
    var cs := Storage.ChangesOf(st);
    var refreshed := Refreshed(cs, Visitor(o, remote), |cs|);
    var saved := Storage.ChangesOf(RunSpec(st, false, b, remote).state);
    RunCompleted(st, b, remote);
    if Updates(cs, Visitor(o, remote)) == [] {
      SweepReplacesInPlace(o, cs, Visitor(o, remote), |cs|);
      assert cs[..|cs|] == cs;
      NoUpdatesNoChange(o, cs, Visitor(o, remote), |cs|);
      assert saved == cs && refreshed == cs;
      EmbedsSelf(cs);
    } else {
      assert saved == Filter(refreshed, Survives);
      FilterEmbeds(refreshed, Survives);
    }
  }

  /** A cycle that polls and does not throw asks to stop exactly when every
      entry of the list it leaves in storage is merged or abandoned. */
  lemma RunStopsWhenIdle(st: Storage.Snapshot, b: Browser, remote: Gerrit.Remote)
    requires Configured(st)
    requires Swept(st, remote).fault.None?
    ensures var out := RunSpec(st, false, b, remote);
      StopCalled in out.log <==> AllTerminal(Storage.ChangesOf(out.state))
  {
    var o := Storage.OptionsOf(st);
    var cs := Storage.ChangesOf(st);
    RunCompleted(st, b, remote);
    var ups := Updates(cs, Visitor(o, remote));
    var kept := Filter(Refreshed(cs, Visitor(o, remote), |cs|), Survives);
    var requests := Requests(o, Filter(cs, Queried));
    assert StopCalled !in requests;
    if ups == [] {
      StopLast(requests, cs);
    } else if b.popupOpen {
      StopLast(requests + [SendUpdate(ups)], kept);
    } else {
      StopLast(requests + [Badge(Text.Decimal(|ups|)), Notify(b.title, NotificationText(b.template, |ups|))], kept);
    }
  }

  /** A log that ends with the idle check stops exactly when the list is idle. */
  lemma StopLast(prefix: seq<Effect>, cs: seq<Change>)
    requires StopCalled !in prefix
    ensures StopCalled in prefix + StopIfIdle(cs) <==> AllTerminal(cs)
  {
  }

  /** The cycle itself. The restart callback and the stop callback are the
      last thing it does, so they are returned as the last effect and the
      service applies them. */
  method Run(store: Storage.Store, restart: bool, b: Browser, remote: Gerrit.Remote) returns (log: seq<Effect>)
    modifies store
    ensures store.State() == RunSpec(old(store.State()), restart, b, remote).state
    ensures log == RunSpec(old(store.State()), restart, b, remote).log
  {
    var st := store.State();
    var options := Storage.OptionsOf(st);
    var config := Storage.ConfigCheck(options);
    if config.Err? {
      return [Rejected(config.fault)];
    }
    if !config.value {
      return [StopCalled];
    }
    var changes, updated, fault, restarted;
    changes, updated, log, fault, restarted := QueryChanges(options, Storage.ChangesOf(st), restart, Visitor(options, remote));
    if restarted {
      return;
    }
    if fault.Some? {
      log := log + [Rejected(fault.value)];
      return;
    }
    if restart {
      log := log + [RestartCalled];
      return;
    }
    log := Settle(store, changes, updated, log, b);
  }

  /** The loop of the cycle: each entry that is not merged is queried, and
      replaced in place when the result replaces it. A pending restart is
      noticed at the top of the first iteration; a query that throws ends
      the loop. */
  method QueryChanges(options: Options, cs: seq<Change>, restart: bool, visit: Change -> Visit)
    returns (changes: seq<Change>, updated: seq<Change>, log: seq<Effect>, fault: Option<Fault>, restarted: bool)
    ensures restarted <==> restart && |cs| > 0
    ensures restarted ==> log == [RestartCalled]
    ensures !restarted ==> Sweep(changes, updated, log, fault) == SweepUpTo(options, cs, visit, |cs|)
  {
    changes, updated, log, fault, restarted := cs, [], [], None, false;
    var index := 0;
    while index < |changes|
      invariant 0 <= index <= |cs| == |changes|
      invariant restart ==> index == 0
      invariant SweepUpTo(options, cs, visit, index) == Sweep(changes, updated, log, None)
      invariant forall i :: index <= i < |cs| ==> changes[i] == cs[i]
      invariant fault.None? && !restarted
    {
      if restart {
        log := log + [RestartCalled];
        restarted := true;
        return;
      }
      changes, updated, log, fault := QueryEntry(options, cs, visit, index, changes, updated, log);
      if fault.Some? {
        SweepFaultSticks(options, cs, visit, index + 1, |cs|);
        return;
      }
      index := index + 1;
    }
  }

  /** One iteration of the loop, on the entry at `index`: a merged entry is
      passed over; any other is requested, and then either the query threw,
      or its result replaced the entry in place and was pushed as updated,
      or nothing changed. */
  method QueryEntry(options: Options, cs: seq<Change>, visit: Change -> Visit, index: nat,
                    changes: seq<Change>, updated: seq<Change>, log: seq<Effect>)
    returns (changes': seq<Change>, updated': seq<Change>, log': seq<Effect>, fault: Option<Fault>)
    requires index < |cs| == |changes|
    requires SweepUpTo(options, cs, visit, index) == Sweep(changes, updated, log, None)
    requires changes[index] == cs[index]
    ensures SweepUpTo(options, cs, visit, index + 1) == Sweep(changes', updated', log', fault)
    ensures |changes'| == |cs|
    ensures forall i :: 0 <= i < |cs| && i != index ==> changes'[i] == changes[i]
  {
    changes', updated', log', fault := changes, updated, log, None;
    var elem := changes[index];
    if elem.status == Some(Merged) {
      return;
    }
    log' := log + [Request(Gerrit.QueryUrl(options.endpoint, elem.id))];
    match visit(elem) {
      case Threw(f) =>
        fault := Some(f);
      case Replaced(result) =>
        changes' := changes[index := result];
        updated' := updated + [Marked(result)];
      case Unchanged =>
    }
  }

  /** The part of the cycle after a loop that did not throw: write back and
      surface the updates, then stop when nothing is left to poll. */
  method Settle(store: Storage.Store, changes: seq<Change>, updated: seq<Change>, trace: seq<Effect>, b: Browser)
    returns (log: seq<Effect>)
    modifies store
    ensures store.State() == Publish(old(store.State()), Sweep(changes, updated, trace, None), b).state
    ensures log == Publish(old(store.State()), Sweep(changes, updated, trace, None), b).log
  {
    var remaining := changes;
    log := trace;
    if |updated| > 0 {
      remaining := Filter(changes, Survives);
      store.SaveChanges(remaining);
      if b.popupOpen {
        log := log + [SendUpdate(updated)];
      } else {
        store.SaveUpdatedChanges(Some(updated));
        log := log + [Badge(Text.Decimal(|updated|)), Notify(b.title, NotificationText(b.template, |updated|))];
      }
    }
    if AllTerminal(remaining) {
      log := log + [StopCalled];
    }
  }
}
