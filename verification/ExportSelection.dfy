/** Which sessions and requests an export covers (cli/web_export.go:189-258). */
module ExportSelection {
  datatype Session = Session(id: string, proxify: bool)

  datatype Pick = Pick(session: string, id: int)

  /** `everything`: the scope is all or filtered sessions, not the ones selected by hand. */
  datatype Selection = Selection(everything: bool, sessionId: string, sessionIds: seq<string>, requestIds: seq<Pick>)

  datatype Selected = Chosen(sessions: seq<Session>, picks: map<string, seq<int>>) | Rejected

  /** The session table's ids are directory names, and a key. */
  predicate UniqueIds(all: seq<Session>) {
    && (forall i, j :: 0 <= i < j < |all| ==> all[i].id != all[j].id)
    && forall s | s in all :: s.id != ""
  }

  // ----- picked requests -----

  predicate Picked(picks: seq<Pick>, session: string, id: int) {
    Pick(session, id) in picks
  }

  predicate Increasing(ids: seq<int>) {
    forall i, j :: 0 <= i < j < |ids| ==> ids[i] < ids[j]
  }

  function Put(ids: seq<int>, id: int): seq<int> {
    if ids == [] || id < ids[0] then [id] + ids else [ids[0]] + Put(ids[1..], id)
  }

  function Sorted(ids: seq<int>): seq<int> {
    if ids == [] then [] else Put(Sorted(ids[1..]), ids[0])
  }

  lemma IncreasingFirst(first: int, rest: seq<int>)
    requires Increasing(rest) && forall n | n in rest :: first < n
    ensures Increasing([first] + rest)
  {
    assert forall i | 0 <= i < |rest| :: rest[i] in rest;
  }

  lemma FirstIsLeast(ids: seq<int>)
    requires Increasing(ids) && ids != []
    ensures Increasing(ids[1..]) && (forall n | n in ids[1..] :: ids[0] < n)
      && forall n :: n in ids <==> n == ids[0] || n in ids[1..]
  {
    assert ids == [ids[0]] + ids[1..];
    assert forall i | 0 <= i < |ids[1..]| :: ids[1..][i] == ids[i + 1];
  }

  lemma {:induction false} PutKeeps(ids: seq<int>, id: int)
    requires Increasing(ids) && id !in ids
    ensures Increasing(Put(ids, id)) && forall n :: n in Put(ids, id) <==> n == id || n in ids
    decreases |ids|
  {
    hide Increasing;
    if ids == [] {
      IncreasingFirst(id, ids);
    } else {
      FirstIsLeast(ids);
      if id < ids[0] {
        IncreasingFirst(id, ids);
      } else {
        PutKeeps(ids[1..], id);
        IncreasingFirst(ids[0], Put(ids[1..], id));
      }
    }
  }

  lemma {:induction false} SortedKeeps(ids: seq<int>)
    requires forall i, j :: 0 <= i < j < |ids| ==> ids[i] != ids[j]
    ensures Increasing(Sorted(ids)) && forall n :: n in Sorted(ids) <==> n in ids
    decreases |ids|
  {
    if ids != [] {
      assert ids == [ids[0]] + ids[1..];
      SortedKeeps(ids[1..]);
      assert forall j | 0 <= j < |ids[1..]| :: ids[1..][j] == ids[j + 1];
      PutKeeps(Sorted(ids[1..]), ids[0]);
    }
  }

  predicate Distinct(ids: seq<int>) {
    forall i, j :: 0 <= i < j < |ids| ==> ids[i] != ids[j]
  }

  /** Each session's picked ids without repeats, in order of first appearance. */
  ghost predicate Grouped(groups: map<string, seq<int>>, picks: seq<Pick>) {
    && (forall p | p in picks :: p.session in groups && p.id in groups[p.session])
    && (forall s | s in groups :: groups[s] != [] && Distinct(groups[s]) && forall id | id in groups[s] ::
      Picked(picks, s, id))
  }

  method GroupPicks(picks: seq<Pick>) returns (groups: map<string, seq<int>>)
    ensures Grouped(groups, picks)
  {
    groups := map[];
    for i := 0 to |picks|
      invariant Grouped(groups, picks[..i])
    {
      var p := picks[i];
      assert picks[..i + 1] == picks[..i] + [p];
      var before := if p.session in groups then groups[p.session] else [];
      if p.id !in before {
        groups := groups[p.session := before + [p.id]];
      }
    }
    assert picks[..|picks|] == picks;
  }

  /** The picked ids of each session: exactly those asked for, each once, in increasing order. */
  ghost predicate PicksOf(groups: map<string, seq<int>>, picks: seq<Pick>) {
    && (forall s :: s in groups <==> exists id :: Picked(picks, s, id))
    && (forall s | s in groups :: Increasing(groups[s]))
    && (forall s, id | s in groups :: id in groups[s] <==> Picked(picks, s, id))
  }

  method SelectedRequests(picks: seq<Pick>) returns (groups: map<string, seq<int>>)
    ensures PicksOf(groups, picks)
  {
    var unsorted := GroupPicks(picks);
    groups := map s | s in unsorted :: Sorted(unsorted[s]);
    forall s | s in unsorted ensures Increasing(groups[s]) && forall id :: id in groups[s] <==> id in unsorted[s] {
      SortedKeeps(unsorted[s]);
    }
    hide Sorted, Increasing, Distinct;
    forall s ensures s in groups <==> exists id :: Picked(picks, s, id) {
      if s in unsorted {
        assert unsorted[s][0] in unsorted[s];
        assert Picked(picks, s, unsorted[s][0]);
      }
      if exists id :: Picked(picks, s, id) {
        var id :| Picked(picks, s, id);
        assert Pick(s, id) in picks;
      }
    }
  }

  // ----- sessions -----

  predicate HasPicks(selection: Selection, session: string) {
    exists p | p in selection.requestIds :: p.session == session
  }

  predicate Included(s: Session, selection: Selection) {
    if selection.everything then selection.sessionId == "" || s.id == selection.sessionId
    else s.id in selection.sessionIds || HasPicks(selection, s.id)
  }

  /** What the export covers: the included sessions that have an index of requests, in list order. */
  function Eligible(all: seq<Session>, selection: Selection): seq<Session> {
    if all == [] then []
    else
      var last := all[|all| - 1];
      Eligible(all[..|all| - 1], selection) + (if Included(last, selection) && last.proxify then [last] else [])
  }

  predicate Asked(selection: Selection, id: string) {
    (id != "" && id == selection.sessionId) || id in selection.sessionIds || HasPicks(selection, id)
  }

  predicate Covers(sessions: seq<Session>, id: string) {
    exists s | s in sessions :: s.id == id
  }

  /** Something is covered, and so is everything that was asked for by name. */
  ghost predicate Exportable(all: seq<Session>, selection: Selection) {
    && Eligible(all, selection) != []
    && forall id | Asked(selection, id) :: Covers(Eligible(all, selection), id)
  }

  lemma {:induction false} EligibleIff(all: seq<Session>, selection: Selection)
    ensures forall s :: s in Eligible(all, selection) <==> s in all && Included(s, selection) && s.proxify
    decreases |all|
  {
    if all != [] {
      EligibleIff(all[..|all| - 1], selection);
      assert all == all[..|all| - 1] + [all[|all| - 1]];
      hide Included;
    }
  }

  lemma NotCovered(all: seq<Session>, selection: Selection, s: Session)
    requires UniqueIds(all) && s in all && !s.proxify && Asked(selection, s.id)
    ensures !Exportable(all, selection)
  {
    EligibleIff(all, selection);
    hide Included, Eligible;
    assert forall other | other in all && other.id == s.id :: other == s;
  }

  /** The selection is refused exactly when nothing is covered or something asked for by name is not;
      otherwise it has the covered sessions and the picked ids. */
  method SelectWebExportSessions(all: seq<Session>, selection: Selection) returns (r: Selected)
    requires UniqueIds(all)
    ensures r.Rejected? <==> !Exportable(all, selection)
    ensures r.Chosen? ==> r.sessions == Eligible(all, selection) && PicksOf(r.picks, selection.requestIds)
  {
    hide PicksOf, Increasing;
    var picks := SelectedRequests(selection.requestIds);
    assert forall id :: id in picks <==> HasPicks(selection, id) by {
      GroupsAreSessions(picks, selection);
    }
    hide HasPicks, Picked;
    var result: seq<Session> := [];
    var found: set<string> := {};
    for i := 0 to |all|
      invariant result == Eligible(all[..i], selection)
      invariant forall id :: id in found <==> Covers(result, id)
    {
      var session := all[i];
      assert all[..i + 1][..i] == all[..i];
      var wanted := if selection.everything then selection.sessionId == "" || session.id == selection.sessionId
                    else session.id in selection.sessionIds || session.id in picks;
      if !wanted {
        continue;
      }
      if !session.proxify {
        if selection.sessionId == session.id || session.id in selection.sessionIds || session.id in picks {
          NotCovered(all, selection, session);
          return Rejected;
        }
        continue;
      }
      CoversMore(result, session);
      result := result + [session];
      found := found + {session.id};
    }
    assert all[..|all|] == all;
    hide Eligible, Covers;
    if selection.sessionId != "" && selection.sessionId !in found {
      return Rejected;
    }
    if exists id | id in selection.sessionIds :: id !in found {
      return Rejected;
    }
    if exists id | id in picks :: id !in found {
      return Rejected;
    }
    if |result| == 0 {
      return Rejected;
    }
    r := Chosen(result, picks);
  }

  lemma GroupsAreSessions(picks: map<string, seq<int>>, selection: Selection)
    requires PicksOf(picks, selection.requestIds)
    ensures forall id :: id in picks <==> HasPicks(selection, id)
  {
    forall s ensures s in picks <==> HasPicks(selection, s) {
      if HasPicks(selection, s) {
        var p :| p in selection.requestIds && p.session == s;
        assert p == Pick(s, p.id) && Picked(selection.requestIds, s, p.id);
      }
      if s in picks {
        var id :| Picked(selection.requestIds, s, id);
        assert Pick(s, id) in selection.requestIds;
      }
    }
  }

  lemma CoversMore(sessions: seq<Session>, s: Session)
    ensures forall id :: Covers(sessions + [s], id) <==> Covers(sessions, id) || id == s.id
  {
    forall id ensures Covers(sessions + [s], id) <==> Covers(sessions, id) || id == s.id {
      assert s in sessions + [s];
      assert forall o :: o in sessions ==> o in sessions + [s];
    }
  }
}
