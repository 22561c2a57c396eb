/** The feed page, frontend/src/pages/BrowseFeed.jsx: the map from article to
    the user's current interaction and the counter beside it, updated by
    `handleInteraction`; the three-interaction gate of "Get Recommendations";
    and the read reports of the visibility handler. Whether the backend is
    reachable is a parameter: a thrown `fetch` leaves the state as it was. */
module BrowseFeed {
  import opened Wrappers

  datatype Kind = Like | Dislike | Read

  /** The page's `interactions` object and `interactionsCount`. */
  datatype FeedState = FeedState(interactions: map<int, Kind>, count: int)

  /** The counter agrees with the map: the state starting from `{}` and 0 keeps. */
  predicate Consistent(s: FeedState)
  {
    s.count == |s.interactions.Keys|
  }

  /** The state after a successful `handleInteraction(id, kind)` (lines
      213-278): the same interaction again removes the entry and decrements
      the counter; a different one replaces the entry; a first one adds it
      and increments the counter. */
  function Toggle(s: FeedState, id: int, kind: Kind): FeedState
  {
    if id in s.interactions && s.interactions[id] == kind then
      FeedState(s.interactions - {id}, s.count - 1)
    else if id in s.interactions then
      FeedState(s.interactions[id := kind], s.count)
    else
      FeedState(s.interactions[id := kind], s.count + 1)
  }

  /** What happens to the article's entry and to the counter. */
  lemma ToggleEntry(s: FeedState, id: int, kind: Kind)
    ensures var r := Toggle(s, id, kind);
      && (id in s.interactions && s.interactions[id] == kind ==> id !in r.interactions && r.count == s.count - 1)
      && (id in s.interactions && s.interactions[id] != kind ==> r.interactions[id] == kind && r.count == s.count)
      && (id !in s.interactions ==> id in r.interactions && r.interactions[id] == kind && r.count == s.count + 1)
  {
  }

  /** No other article's entry changes. */
  lemma ToggleFrame(s: FeedState, id: int, kind: Kind)
    ensures forall other :: other != id ==>
      (other in Toggle(s, id, kind).interactions <==> other in s.interactions)
    ensures forall other :: other != id && other in s.interactions ==>
      Toggle(s, id, kind).interactions[other] == s.interactions[other]
  {
  }

  /** Every transition keeps the counter equal to the number of entries. */
  lemma ToggleKeepsCount(s: FeedState, id: int, kind: Kind)
    ensures Consistent(s) ==> Consistent(Toggle(s, id, kind))
  {
    var m := s.interactions;
    if !Consistent(s) {
    } else if id in m {
      assert m.Keys == (m.Keys - {id}) + {id};
      assert (m - {id}).Keys == m.Keys - {id};
      assert m[id := kind].Keys == m.Keys;
    } else {
      assert m[id := kind].Keys == m.Keys + {id};
    }
  }

  /** The same interaction applied twice restores the state, unless the
      article had a different interaction, which the pair then removes. */
  lemma ToggleTwice(s: FeedState, id: int, kind: Kind)
    ensures id !in s.interactions || s.interactions[id] == kind ==>
      Toggle(Toggle(s, id, kind), id, kind) == s
    ensures id in s.interactions && s.interactions[id] != kind ==>
      Toggle(Toggle(s, id, kind), id, kind) == FeedState(s.interactions - {id}, s.count - 1)
  {
    var m := s.interactions;
    if id !in m {
      assert m[id := kind] - {id} == m;
    } else if m[id] == kind {
      assert (m - {id})[id := kind] == m;
    } else {
      assert m[id := kind] - {id} == m - {id};
    }
  }

  /** The requests `handleInteraction` sends: a DELETE to toggle off; a DELETE
      of the old interaction and a POST of the new one to replace; a POST
      for a first interaction. */
  datatype Request = DeleteInteraction(id: int) | PostInteraction(id: int, kind: Kind, readTimeSeconds: int)

  function InteractionRequests(m: map<int, Kind>, id: int, kind: Kind, readTimeSeconds: int): (r: seq<Request>)
    ensures |r| >= 1
    ensures DeleteInteraction(id) in r <==> id in m
    ensures PostInteraction(id, kind, readTimeSeconds) in r <==> !(id in m && m[id] == kind)
  {
    if id in m && m[id] == kind then [DeleteInteraction(id)]
    else if id in m then [DeleteInteraction(id), PostInteraction(id, kind, readTimeSeconds)]
    else [PostInteraction(id, kind, readTimeSeconds)]
  }

  const REFUSAL := "Interact with at least 3 articles to help us tailor recommendations just for you."

  /** `handleRecommendations` (lines 286-291): the refusal message when fewer
      than three interactions are counted, otherwise none. */
  function RecommendationsGate(count: int): (refusal: Option<string>)
    ensures refusal.Some? <==> count < 3
    ensures refusal.Some? ==> refusal.value == REFUSAL
  {
    if count < 3 then Some(REFUSAL) else None
  }

  /** In a consistent state the gate opens exactly when three articles carry
      an interaction. */
  lemma GateCountsArticles(s: FeedState)
    requires Consistent(s)
    ensures RecommendationsGate(s.count).None? <==> |s.interactions.Keys| >= 3
  {
  }

  /** The visibility handler as written (lines 95-118). It is registered once
      (`[]` dependencies), so it calls the `handleInteraction` of the first
      render, whose `interactions` is `{}`: every read report is taken for a
      first interaction, stored through the functional update and counted. */
  function StaleReadReport(s: FeedState, id: int): FeedState
  {
    FeedState(s.interactions[id := Read], s.count + 1)
  }

  /** After a like, a read report on the same article leaves one entry but a
      count of two; a second read report does not toggle the read off. */
  lemma StaleReadReportMiscounts(id: int)
    ensures var liked := Toggle(FeedState(map[], 0), id, Like);
      var read := StaleReadReport(liked, id);
      && Consistent(liked) && !Consistent(read) && read.count == 2 && |read.interactions.Keys| == 1
    ensures var once := StaleReadReport(FeedState(map[], 0), id);
      var twice := StaleReadReport(once, id);
      id in twice.interactions && twice.count == 2
  {
    var liked := Toggle(FeedState(map[], 0), id, Like);
    assert liked.interactions.Keys == {id};
    var read := StaleReadReport(liked, id);
    assert read.interactions.Keys == {id};
  }

  /** The evidently intended read report: the same transition as a click on
      the current state, so it keeps the counter consistent and a second read
      report toggles the read off. */
  function ReadReport(s: FeedState, id: int): (r: FeedState)
    ensures Consistent(s) ==> Consistent(r)
    ensures id !in s.interactions || s.interactions[id] == Read ==> Toggle(r, id, Read) == s
  {
    ToggleKeepsCount(s, id, Read);
    ToggleTwice(s, id, Read);
    Toggle(s, id, Read)
  }

  /** The feed's interaction state. */
  class FeedInteractions {
    var interactions: map<int, Kind>
    var count: int

    function State(): FeedState
      reads this
    {
      FeedState(interactions, count)
    }

    /** `useState({})` and `useState(0)` (lines 74-75). */
    constructor()
      ensures interactions == map[] && count == 0
      ensures Consistent(State())
    {
      interactions := map[];
      count := 0;
    }

    /** `handleInteraction(id, kind, readTimeSeconds)`. `sent` are the
        requests that reached the backend. */
    method HandleInteraction(id: int, kind: Kind, readTimeSeconds: int, reachable: bool) returns (sent: seq<Request>)
      modifies this
      ensures reachable ==> State() == Toggle(old(State()), id, kind)
      ensures reachable ==> sent == InteractionRequests(old(interactions), id, kind, readTimeSeconds)
      ensures !reachable ==> State() == old(State()) && sent == []
      ensures Consistent(old(State())) ==> Consistent(State())
    {
      if !reachable {
        return [];
      }
      ToggleKeepsCount(State(), id, kind);
      var prev := if id in interactions then Some(interactions[id]) else None;
      if prev == Some(kind) {
        sent := [DeleteInteraction(id)];
        interactions := interactions - {id};
        count := count - 1;
        return;
      }
      sent := [];
      if prev.Some? {
        sent := sent + [DeleteInteraction(id)];
      }
      sent := sent + [PostInteraction(id, kind, readTimeSeconds)];
      interactions := interactions[id := kind];
      if prev.None? {
        count := count + 1;
      }
    }

    /** A read report handled as the intended `ReadReport`. */
    method ReportRead(id: int, readTimeSeconds: int, reachable: bool) returns (sent: seq<Request>)
      modifies this
      ensures reachable ==> State() == ReadReport(old(State()), id)
      ensures !reachable ==> State() == old(State())
      ensures Consistent(old(State())) ==> Consistent(State())
    {
      sent := HandleInteraction(id, Read, readTimeSeconds, reachable);
    }
  }
}
