/**
  The debounce of the autocomplete search (`updateEmotePopup` and the composer's input
  listener). One timer slot and one `lastSearchQuery` are shared by the main composer and
  the thread composer. An input that yields a query replaces whatever search is pending; when
  the timer fires, a query equal to the last executed one does nothing, and any other query
  becomes the last executed one before the popup is looked up and the directory is asked.
  Time is not modelled: the 300 ms expiry is the `TimerFires` event.
 */
module Debounce {
  import opened Wrappers
  import opened Resolver
  import opened Autocomplete

  /** A scheduled search: the query and which composer's popup it fills. */
  datatype Pending = Pending(query: string, thread: bool)

  /** The two globals: the pending timer (`searchTimeout`) and `lastSearchQuery`. */
  datatype State = State(searchTimeout: Option<Pending>, lastSearchQuery: string)

  /** An input event on a composer, or the expiry of the pending timer (with whether the popup and its list are on the page). */
  datatype Event = Input(value: string, thread: bool) | TimerFires(popupReady: bool)

  /**
    What a timer expiry does to the page: nothing, a skip for a repeated query, an early
    return for a missing popup, a search with no results (the list is left as it is), or a
    new list of suggestions.
   */
  datatype Effect = Idle | Skipped | NoPopup | KeptList | NewList(emotes: seq<EmoteRecord>)

  /** The state after an event, its effect, and the queries sent to the directory. */
  datatype Outcome = Outcome(state: State, effect: Effect, searched: seq<string>)

  const Initial: State := State(None, "")

  /** The synchronous part of `updateEmotePopup`: clear the pending timer and set a new one. */
  function Schedule(s: State, query: string, thread: bool): State
  {
    State(Some(Pending(query, thread)), s.lastSearchQuery)
  }

  /** The input listener: schedule the query, when the value yields one. */
  function OnInput(s: State, value: string, thread: bool): State
  {
    match QueryOf(value)
    case Some(query) => Schedule(s, query, thread)
    case None => s
  }

  /** The timer callback of `updateEmotePopup`. */
  function Fire(s: State, popupReady: bool, search: Api): Outcome
  {
    match s.searchTimeout
    case None => Outcome(s, Idle, [])
    case Some(p) =>
      if p.query == s.lastSearchQuery then Outcome(State(None, s.lastSearchQuery), Skipped, [])
      else
        var after := State(None, p.query);
        if !popupReady then Outcome(after, NoPopup, [])
        else
          var result := SearchEmotes(p.query, search);
          var sent := if result.requested then [p.query] else [];
          if |result.items| == 0 then Outcome(after, KeptList, sent)
          else Outcome(after, NewList(UniqueByName(result.items)), sent)
  }

  function Step(s: State, e: Event, search: Api): Outcome
  {
    match e
    case Input(value, thread) => Outcome(OnInput(s, value, thread), Idle, [])
    case TimerFires(popupReady) => Fire(s, popupReady, search)
  }

  /** A run of events from `s`: the final state, the last effect, and every query sent, in order. */
  function Run(s: State, events: seq<Event>, search: Api): Outcome
    decreases |events|
  {
    if events == [] then Outcome(s, Idle, [])
    else
      var before := Run(s, events[..|events| - 1], search);
      var last := Step(before.state, events[|events| - 1], search);
      Outcome(last.state, last.effect, before.searched + last.searched)
  }

  /** An input that yields a query replaces any pending one, from either composer; one that does not changes nothing. */
  lemma InputReplacesPending(s: State, value: string, thread: bool, search: Api)
    ensures var o := Step(s, Input(value, thread), search);
      && o.searched == []
      && (QueryOf(value).Some? ==> o.state == State(Some(Pending(QueryOf(value).value, thread)), s.lastSearchQuery))
      && (QueryOf(value).None? ==> o.state == s)
  {
  }

  /** Firing the query executed last does nothing but consume the timer. */
  lemma FireRepeatedQuery(s: State, popupReady: bool, search: Api)
    requires s.searchTimeout.Some? && s.searchTimeout.value.query == s.lastSearchQuery
    ensures Fire(s, popupReady, search) == Outcome(State(None, s.lastSearchQuery), Skipped, [])
  {
  }

  /**
    Firing any other query records it as the last query first, so it is recorded even when
    the popup is missing and no search is made; a search yielding nothing leaves the list
    alone, and otherwise the list shows the results without case-insensitive duplicates.
   */
  lemma FireNewQuery(s: State, popupReady: bool, search: Api)
    requires s.searchTimeout.Some? && s.searchTimeout.value.query != s.lastSearchQuery
    ensures var q := s.searchTimeout.value.query;
      var o := Fire(s, popupReady, search);
      && o.state == State(None, q)
      && (!popupReady ==> o.effect == NoPopup && o.searched == [])
      && (popupReady ==> o.searched == (if |q| >= MinQueryLength then [q] else []))
      && (popupReady && SearchEmotes(q, search).items == [] ==> o.effect == KeptList)
      && (popupReady && SearchEmotes(q, search).items != [] ==>
            o.effect == NewList(UniqueByName(SearchEmotes(q, search).items)))
  {
    SearchGuard(s.searchTimeout.value.query, search);
  }

  predicate AllInputs(events: seq<Event>)
  {
    forall i :: 0 <= i < |events| ==> events[i].Input?
  }

  /** Position `k` holds the last event of the run that yields a query. */
  predicate LastQueryAt(events: seq<Event>, k: int)
    requires AllInputs(events)
  {
    && 0 <= k < |events|
    && QueryOf(events[k].value).Some?
    && forall j :: k < j < |events| ==> QueryOf(events[j].value).None?
  }

  /** A run one event longer is the shorter run followed by that event. */
  lemma RunSnoc(s: State, events: seq<Event>, e: Event, search: Api)
    ensures var before := Run(s, events, search);
      var last := Step(before.state, e, search);
      Run(s, events + [e], search) == Outcome(last.state, last.effect, before.searched + last.searched)
  {
    assert (events + [e])[..|events|] == events;
  }

  /** A burst of input events sends nothing and leaves `lastSearchQuery` alone. */
  lemma {:induction false} BurstSendsNothing(s: State, events: seq<Event>, search: Api)
    requires AllInputs(events)
    ensures Run(s, events, search).searched == []
    ensures Run(s, events, search).state.lastSearchQuery == s.lastSearchQuery
    decreases |events|
  {
    if events != [] {
      var front := events[..|events| - 1];
      assert events == front + [events[|events| - 1]];
      assert AllInputs(front);
      BurstSendsNothing(s, front, search);
      RunSnoc(s, front, events[|events| - 1], search);
    }
  }

  /** A burst in which no input yields a query changes nothing. */
  lemma {:induction false} BurstWithoutQuery(s: State, events: seq<Event>, search: Api)
    requires AllInputs(events)
    requires forall i :: 0 <= i < |events| ==> QueryOf(events[i].value).None?
    ensures Run(s, events, search).state == s
    decreases |events|
  {
    if events != [] {
      var front := events[..|events| - 1];
      assert events == front + [events[|events| - 1]];
      assert AllInputs(front);
      assert forall i :: 0 <= i < |front| ==> QueryOf(front[i].value).None? by {
        forall i | 0 <= i < |front| ensures QueryOf(front[i].value).None? { assert front[i] == events[i]; }
      }
      BurstWithoutQuery(s, front, search);
      RunSnoc(s, front, events[|events| - 1], search);
    }
  }

  /** After a burst, the search pending is that of the last input that yielded a query, for that input's composer. */
  lemma {:induction false} BurstLeavesLastQuery(s: State, events: seq<Event>, k: int, search: Api)
    requires AllInputs(events) && LastQueryAt(events, k)
    ensures Run(s, events, search).state.searchTimeout == Some(Pending(QueryOf(events[k].value).value, events[k].thread))
    decreases |events|
  {
    var front := events[..|events| - 1];
    var e := events[|events| - 1];
    assert events == front + [e];
    assert e.Input?;
    RunSnoc(s, front, e, search);
    var before := Run(s, front, search).state;
    InputReplacesPending(before, e.value, e.thread, search);
    assert Run(s, events, search).state == Step(before, e, search).state;
    if k < |events| - 1 {
      assert AllInputs(front);
      assert LastQueryAt(front, k) by {
        forall j | k < j < |front| ensures QueryOf(front[j].value).None? { assert front[j] == events[j]; }
        assert front[k] == events[k];
      }
      BurstLeavesLastQuery(s, front, k, search);
      assert QueryOf(e.value).None?;
    }
  }

  /**
    A burst of inputs followed by one timer expiry searches at most once, and only for the
    last query of the burst, unless that query is the one executed last.
   */
  lemma BurstThenFire(s: State, events: seq<Event>, popupReady: bool, k: int, search: Api)
    requires AllInputs(events) && LastQueryAt(events, k)
    ensures var q := QueryOf(events[k].value).value;
      var o := Run(s, events + [TimerFires(popupReady)], search);
      && o.searched == (if popupReady && q != s.lastSearchQuery then [q] else [])
      && o.state == State(None, q)
  {
    var q := QueryOf(events[k].value).value;
    QueryOfSound(events[k].value, q);
    BurstSendsNothing(s, events, search);
    BurstLeavesLastQuery(s, events, k, search);
    var mid := Run(s, events, search);
    assert mid.state == State(Some(Pending(q, events[k].thread)), s.lastSearchQuery);
    assert mid.searched == [];
    var f := Fire(mid.state, popupReady, search);
    RunSnoc(s, events, TimerFires(popupReady), search);
    assert Run(s, events + [TimerFires(popupReady)], search) == Outcome(f.state, f.effect, [] + f.searched);
    if q != s.lastSearchQuery {
      FireNewQuery(mid.state, popupReady, search);
    } else {
      FireRepeatedQuery(mid.state, popupReady, search);
    }
  }

  /** The two globals, updated in place by the listener and the timer callback. */
  class SearchDebouncer {
    var searchTimeout: Option<Pending>
    var lastSearchQuery: string
    /** The queries sent to the directory so far, in order. */
    ghost var searched: seq<string>

    function Current(): State
      reads this
    {
      State(searchTimeout, lastSearchQuery)
    }

    constructor ()
      ensures Current() == Initial && searched == []
    {
      searchTimeout := None;
      lastSearchQuery := "";
      searched := [];
    }

    /** `updateEmotePopup(textInput, query, thread)`: replace the pending timer. */
    method UpdateEmotePopup(query: string, thread: bool)
      modifies this
      ensures Current() == Schedule(old(Current()), query, thread)
      ensures searched == old(searched)
    {
      searchTimeout := Some(Pending(query, thread));
    }

    /** The composer's input listener. */
    method HandleInput(value: string, thread: bool)
      modifies this
      ensures Current() == OnInput(old(Current()), value, thread)
      ensures searched == old(searched)
    {
      var lastColonIndex := Strings.LastIndexOf(value, ':');
      if lastColonIndex != -1 {
        var query := value[lastColonIndex + 1..];
        if |query| >= MinQueryLength {
          UpdateEmotePopup(query, thread);
        }
      }
    }

    /** The timer callback. */
    method TimerFires(popupReady: bool, search: Api) returns (effect: Effect)
      modifies this
      ensures var o := Fire(old(Current()), popupReady, search);
        Current() == o.state && effect == o.effect && searched == old(searched) + o.searched
    {
      if searchTimeout.None? {
        return Idle;
      }
      var query := searchTimeout.value.query;
      searchTimeout := None;
      if query == lastSearchQuery {
        return Skipped;
      }
      lastSearchQuery := query;
      if !popupReady {
        return NoPopup;
      }
      var result := SearchEmotes(query, search);
      if result.requested {
        searched := searched + [query];
      }
      if |result.items| == 0 {
        return KeptList;
      }
      var emotes := FilterUniqueEmotes(result.items);
      effect := NewList(emotes);
    }
  }
}
