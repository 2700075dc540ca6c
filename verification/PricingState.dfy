// The search screen's state under responses that arrive in any order
// (frontend/packages/app/lib/src/state/pricing_state.dart).
module PricingState {
  import opened Prelude
  import opened DistinctLists

  datatype Item = Item(id: string, columns: seq<string>)

  datatype SearchPage = SearchPage(items: seq<Item>, page: int, perPage: int, total: int)

  datatype MetaPage = MetaPage(suggestions: seq<string>, stores: seq<(string, int)>, skus: seq<(string, int)>)

  datatype View = View(
    loading: bool, error: Option<string>, searchId: nat, metaId: nat,
    shown: SearchPage, meta: MetaPage, recents: seq<string>)

  // The language's String.trim and String.toLowerCase.
  datatype Text = Text(trim: string -> string, lower: string -> string)

  const RECENTS := 8
  const NO_META := MetaPage([], [], [])
  const INITIAL := View(false, None, 0, 0, SearchPage([], 1, 25, 0), NO_META, [])

  // A call starts (Sent) and, at its await, later resumes with a result or an exception
  // (Done; None is the exception). `request` is the number the call took.
  datatype Event =
    | SearchSent(q: string)
    | SearchDone(request: nat, q: string, result: Option<SearchPage>)
    | MetaSent
    | MetaDone(request: nat, found: Option<MetaPage>, updateFacets: bool)
    | MetaCleared
    | RecentsCleared
    | UpdateSent
    | UpdateDone(id: string, updated: Option<Item>)

  function Remember(text: Text, recents: seq<string>, q: string): seq<string> {
    Take([q] + DropKey(text.lower, recents, text.lower(q)), RECENTS)
  }

  function Replace(items: seq<Item>, id: string, updated: Item): (r: seq<Item>)
    ensures |r| == |items|
    ensures forall i :: 0 <= i < |r| ==> r[i] == if items[i].id == id then updated else items[i]
  {
    if items == [] then [] else [if items[0].id == id then updated else items[0]] + Replace(items[1..], id, updated)
  }

  function Apply(text: Text, v: View, e: Event): View {
    match e
    case SearchSent(_) => v.(searchId := v.searchId + 1, loading := true, error := None)
    case SearchDone(request, q, result) =>
      if request != v.searchId then v
      else if result.None? then v.(error := Some("Search failed"), loading := false)
      else v.(shown := result.value, loading := false,
              recents := if text.trim(q) != "" then Remember(text, v.recents, text.trim(q)) else v.recents)
    case MetaSent => v.(metaId := v.metaId + 1)
    case MetaDone(request, result, updateFacets) =>
      if result.None? || request != v.metaId then v
      else if updateFacets then v.(meta := result.value)
      else v.(meta := v.meta.(suggestions := result.value.suggestions))
    case MetaCleared => v.(meta := NO_META)
    case RecentsCleared => v.(recents := [])
    case UpdateSent => v.(error := None)
    case UpdateDone(id, result) =>
      if result.None? then v.(error := Some("Update failed"))
      else v.(shown := v.shown.(items := Replace(v.shown.items, id, result.value)))
  }

  class PricingState {
    const text: Text
    var loading: bool
    var error: Option<string>
    var searchRequestId: nat
    var metaRequestId: nat
    var items: seq<Item>
    var page: int
    var perPage: int
    var total: int
    var storeIdFacets: seq<(string, int)>
    var skuFacets: seq<(string, int)>
    var suggestions: seq<string>
    var recentSearches: seq<string>

    function Seen(): View
      reads this
    {
      View(loading, error, searchRequestId, metaRequestId, SearchPage(items, page, perPage, total),
           MetaPage(suggestions, storeIdFacets, skuFacets), recentSearches)
    }

    constructor (text: Text)
      ensures this.text == text && Seen() == INITIAL
    {
      this.text := text;
      loading, error, searchRequestId, metaRequestId := false, None, 0, 0;
      items, page, perPage, total := [], 1, 25, 0;
      storeIdFacets, skuFacets, suggestions, recentSearches := [], [], [], [];
    }

    // search, up to its await.
    method StartSearch(q: string) returns (requestId: nat)
      modifies this
      ensures Seen() == Apply(text, old(Seen()), SearchSent(q)) && requestId == searchRequestId
    {
      searchRequestId := searchRequestId + 1;
      requestId := searchRequestId;
      loading := true;
      error := None;
    }

    // search, from its await on, with its `finally`.
    method FinishSearch(requestId: nat, q: string, result: Option<SearchPage>)
      modifies this
      ensures Seen() == Apply(text, old(Seen()), SearchDone(requestId, q, result))
    {
      hide Remember;
      if result.Some? {
        if requestId == searchRequestId {
          var res := result.value;
          items, page, perPage, total := res.items, res.page, res.perPage, res.total;
          var qTrim := text.trim(q);
          if qTrim != "" {
            RememberRecentSearch(qTrim);
          }
        }
      } else if requestId == searchRequestId {
        error := Some("Search failed");
      }
      if requestId == searchRequestId {
        loading := false;
      }
    }

    method RememberRecentSearch(q: string)
      modifies this`recentSearches
      ensures recentSearches == Remember(text, old(recentSearches), q)
    {
      recentSearches := DropKey(text.lower, recentSearches, text.lower(q));
      recentSearches := [q] + recentSearches;
      if |recentSearches| > 8 {
        recentSearches := recentSearches[..8];
      }
    }

    method StartMeta() returns (requestId: nat)
      modifies this
      ensures Seen() == Apply(text, old(Seen()), MetaSent) && requestId == metaRequestId
    {
      metaRequestId := metaRequestId + 1;
      requestId := metaRequestId;
    }

    method FinishMeta(requestId: nat, result: Option<MetaPage>, updateFacets: bool)
      modifies this
      ensures Seen() == Apply(text, old(Seen()), MetaDone(requestId, result, updateFacets))
    {
      if result.None? {
        return;
      }
      if requestId != metaRequestId {
        return;
      }
      suggestions := result.value.suggestions;
      if updateFacets {
        storeIdFacets, skuFacets := result.value.stores, result.value.skus;
      }
    }

    method ClearMeta()
      modifies this
      ensures Seen() == Apply(text, old(Seen()), MetaCleared)
    {
      storeIdFacets, skuFacets, suggestions := [], [], [];
    }

    method ClearRecentSearches()
      modifies this
      ensures Seen() == Apply(text, old(Seen()), RecentsCleared)
    {
      recentSearches := [];
    }

    method StartUpdate()
      modifies this
      ensures Seen() == Apply(text, old(Seen()), UpdateSent)
    {
      error := None;
    }

    method FinishUpdate(id: string, result: Option<Item>)
      modifies this
      ensures Seen() == Apply(text, old(Seen()), UpdateDone(id, result))
    {
      if result.Some? {
        items := Replace(items, id, result.value);
      } else {
        error := Some("Update failed");
      }
    }
  }

  // ---------- histories ----------

  ghost function Run(text: Text, h: seq<Event>): View {
    if h == [] then INITIAL else Apply(text, Run(text, h[..|h| - 1]), h[|h| - 1])
  }

  // The number of searches, and of meta requests, sent.
  ghost function Sent(h: seq<Event>): nat {
    if h == [] then 0 else Sent(h[..|h| - 1]) + if h[|h| - 1].SearchSent? then 1 else 0
  }

  ghost function MetasSent(h: seq<Event>): nat {
    if h == [] then 0 else MetasSent(h[..|h| - 1]) + if h[|h| - 1].MetaSent? then 1 else 0
  }

  ghost predicate Answered(h: seq<Event>, n: nat) {
    exists i :: 0 <= i < |h| && h[i].SearchDone? && h[i].request == n
  }

  ghost predicate MetaAnswered(h: seq<Event>, n: nat) {
    exists i :: 0 <= i < |h| && h[i].MetaDone? && h[i].request == n
  }

  // Each response answers a call that was sent and not yet answered; nothing else about the
  // order of responses is assumed.
  ghost predicate Possible(h: seq<Event>) {
    h == [] ||
    var init, last := h[..|h| - 1], h[|h| - 1];
    && Possible(init)
    && (last.SearchDone? ==> 1 <= last.request <= Sent(init) && !Answered(init, last.request))
    && (last.MetaDone? ==> 1 <= last.request <= MetasSent(init) && !MetaAnswered(init, last.request))
  }

  lemma {:induction false} IdsCountCalls(text: Text, h: seq<Event>)
    ensures Run(text, h).searchId == Sent(h) && Run(text, h).metaId == MetasSent(h)
  {
    if h != [] {
      IdsCountCalls(text, h[..|h| - 1]);
    }
  }

  lemma AnsweredStep(h: seq<Event>, n: nat)
    requires h != []
    ensures Answered(h, n) <==> Answered(h[..|h| - 1], n) || (h[|h| - 1].SearchDone? && h[|h| - 1].request == n)
    ensures MetaAnswered(h, n) <==> MetaAnswered(h[..|h| - 1], n) || (h[|h| - 1].MetaDone? && h[|h| - 1].request == n)
  {
    var init := h[..|h| - 1];
    if Answered(init, n) {
      var i :| 0 <= i < |init| && init[i].SearchDone? && init[i].request == n;
      assert h[i] == init[i];
    }
    if MetaAnswered(init, n) {
      var i :| 0 <= i < |init| && init[i].MetaDone? && init[i].request == n;
      assert h[i] == init[i];
    }
    if Answered(h, n) {
      var i :| 0 <= i < |h| && h[i].SearchDone? && h[i].request == n;
      assert i < |init| ==> init[i] == h[i];
    }
    if MetaAnswered(h, n) {
      var i :| 0 <= i < |h| && h[i].MetaDone? && h[i].request == n;
      assert i < |init| ==> init[i] == h[i];
    }
  }

  lemma {:induction false} AnsweredWereSent(h: seq<Event>, n: nat)
    requires Possible(h)
    ensures Answered(h, n) ==> 1 <= n <= Sent(h)
    ensures MetaAnswered(h, n) ==> 1 <= n <= MetasSent(h)
  {
    if h != [] {
      AnsweredStep(h, n);
      AnsweredWereSent(h[..|h| - 1], n);
    }
  }

  // The spinner is on exactly while the newest search is unanswered.
  lemma {:induction false} LoadingExactlyWhile(text: Text, h: seq<Event>)
    requires Possible(h)
    ensures Run(text, h).loading <==> Sent(h) > 0 && !Answered(h, Sent(h))
  {
    if h != [] {
      var init, last := h[..|h| - 1], h[|h| - 1];
      LoadingExactlyWhile(text, init);
      IdsCountCalls(text, init);
      AnsweredStep(h, Sent(h));
      if last.SearchSent? {
        AnsweredWereSent(init, Sent(h));
      }
    }
  }

  // ---------- latest wins ----------

  // The numbers of the searches whose response was applied, in order of arrival.
  ghost function Applied(h: seq<Event>): seq<nat> {
    if h == [] then []
    else
      var init, last := h[..|h| - 1], h[|h| - 1];
      Applied(init) + if last.SearchDone? && last.request == Sent(init) then [last.request] else []
  }

  ghost function MetasApplied(h: seq<Event>): seq<nat> {
    if h == [] then []
    else
      var init, last := h[..|h| - 1], h[|h| - 1];
      MetasApplied(init) + if last.MetaDone? && last.found.Some? && last.request == MetasSent(init) then [last.request] else []
  }

  lemma {:induction false} AppliedAscend(h: seq<Event>)
    requires Possible(h)
    ensures forall i, j :: 0 <= i < j < |Applied(h)| ==> Applied(h)[i] < Applied(h)[j]
    ensures forall i :: 0 <= i < |Applied(h)| ==> Applied(h)[i] <= Sent(h) && Answered(h, Applied(h)[i])
  {
    if h != [] {
      var init := h[..|h| - 1];
      AppliedAscend(init);
      forall n: nat { AnsweredStep(h, n); }
    }
  }

  lemma {:induction false} MetasAppliedAscend(h: seq<Event>)
    requires Possible(h)
    ensures forall i, j :: 0 <= i < j < |MetasApplied(h)| ==> MetasApplied(h)[i] < MetasApplied(h)[j]
    ensures forall i :: 0 <= i < |MetasApplied(h)| ==> MetasApplied(h)[i] <= MetasSent(h) && MetaAnswered(h, MetasApplied(h)[i])
  {
    if h != [] {
      var init := h[..|h| - 1];
      MetasAppliedAscend(init);
      forall n: nat { AnsweredStep(h, n); }
    }
  }

  // A response to a superseded call changes nothing: no items, paging, error, spinner,
  // facets, suggestions or recents.
  lemma SupersededChangesNothing(text: Text, h: seq<Event>, e: Event)
    requires Possible(h + [e])
    requires (e.SearchDone? && e.request < Sent(h)) || (e.MetaDone? && e.request < MetasSent(h))
    ensures Run(text, h + [e]) == Run(text, h)
  {
    IdsCountCalls(text, h);
    assert (h + [e])[..|h|] == h;
  }

  // What record updates alone make of the items and of the error.
  ghost function ItemsAfter(items: seq<Item>, es: seq<Event>): seq<Item> {
    if es == [] then items
    else
      var before, last := ItemsAfter(items, es[..|es| - 1]), es[|es| - 1];
      if last.UpdateDone? && last.updated.Some? then Replace(before, last.id, last.updated.value) else before
  }

  ghost function ErrorAfter(error: Option<string>, es: seq<Event>): Option<string> {
    if es == [] then error
    else
      var before, last := ErrorAfter(error, es[..|es| - 1]), es[|es| - 1];
      if last.UpdateSent? then None
      else if last.UpdateDone? && last.updated.None? then Some("Update failed")
      else before
  }

  ghost predicate Shows(v: View, p: SearchPage, error: Option<string>, after: seq<Event>) {
    && v.shown == p.(items := ItemsAfter(p.items, after))
    && v.error == ErrorAfter(error, after)
    && !v.loading
  }

  // The event starts no search and brings no response to the newest one.
  ghost predicate LeavesSearch(v: View, e: Event) {
    !e.SearchSent? && (e.SearchDone? ==> e.request != v.searchId)
  }

  lemma ShowsStill(text: Text, v: View, p: SearchPage, error: Option<string>, after: seq<Event>, e: Event)
    requires Shows(v, p, error, after) && LeavesSearch(v, e)
    ensures Shows(Apply(text, v, e), p, error, after + [e])
  {
    assert (after + [e])[..|after|] == after;
  }

  // After the newest search was answered at i, the last event cannot concern it.
  lemma NothingNewer(text: Text, h: seq<Event>, i: nat)
    requires Possible(h) && i < |h| - 1 && h[i].SearchDone? && h[i].request == Sent(h)
    ensures var init := h[..|h| - 1];
            Sent(init) == Sent(h) && LeavesSearch(Run(text, init), h[|h| - 1])
  {
    var init := h[..|h| - 1];
    IdsCountCalls(text, init);
    assert init[i] == h[i];
    AnsweredWereSent(init, h[i].request);
    assert Answered(init, h[i].request);
  }

  lemma NewestJustAnswered(text: Text, h: seq<Event>)
    requires Possible(h) && h != [] && h[|h| - 1].SearchDone? && h[|h| - 1].request == Sent(h)
    ensures var init, last := h[..|h| - 1], h[|h| - 1];
            match last.result
            case Some(p) => Shows(Run(text, h), p, Run(text, init).error, [])
            case None => Shows(Run(text, h), Run(text, init).shown, Some("Search failed"), [])
  {
    IdsCountCalls(text, h[..|h| - 1]);
  }

  // Once the newest search is answered, at whatever point of the history and whatever else
  // arrives later, the screen shows its result, or, if it failed, keeps what it showed with
  // the error; later record updates are the only thing that still shows through.
  lemma {:induction false} NewestWins(text: Text, h: seq<Event>, i: nat)
    requires Possible(h) && i < |h| && h[i].SearchDone? && h[i].request == Sent(h)
    ensures match h[i].result
            case Some(p) => Shows(Run(text, h), p, Run(text, h[..i]).error, h[i + 1..])
            case None => Shows(Run(text, h), Run(text, h[..i]).shown, Some("Search failed"), h[i + 1..])
    decreases |h|
  {
    hide Shows;
    var init, last := h[..|h| - 1], h[|h| - 1];
    if i == |h| - 1 {
      assert h[i + 1..] == [] && h[..i] == init;
      NewestJustAnswered(text, h);
    } else {
      assert init[i] == h[i] && init[..i] == h[..i];
      assert h[i + 1..] == init[i + 1..] + [last];
      NothingNewer(text, h, i);
      NewestWins(text, init, i);
      match h[i].result {
        case Some(p) => ShowsStill(text, Run(text, init), p, Run(text, h[..i]).error, init[i + 1..], last);
        case None => ShowsStill(text, Run(text, init), Run(text, h[..i]).shown, Some("Search failed"), init[i + 1..], last);
      }
    }
  }

  // While the newest search, sent at j, is unanswered, the error is cleared, but for what
  // record updates since then made of it.
  lemma {:induction false} ErrorClearedOnSend(text: Text, h: seq<Event>, j: nat)
    requires Possible(h) && j < |h| && h[j].SearchSent? && Sent(h[..j + 1]) == Sent(h)
    requires !Answered(h, Sent(h))
    ensures Run(text, h).error == ErrorAfter(None, h[j + 1..])
    decreases |h|
  {
    var init, last := h[..|h| - 1], h[|h| - 1];
    if j < |h| - 1 {
      assert init[j] == h[j] && init[..j + 1] == h[..j + 1];
      assert h[j + 1..] == init[j + 1..] + [last];
      assert (init[j + 1..] + [last])[..|init[j + 1..]|] == init[j + 1..];
      SentAscends(init, j + 1);
      AnsweredStep(h, Sent(h));
      IdsCountCalls(text, init);
      ErrorClearedOnSend(text, init, j);
    } else {
      assert h[j + 1..] == [];
    }
  }

  lemma {:induction false} SentAscends(h: seq<Event>, i: nat)
    requires i <= |h|
    ensures Sent(h[..i]) <= Sent(h)
    decreases |h|
  {
    if i < |h| {
      SentAscends(h[..|h| - 1], i);
      assert h[..|h| - 1][..i] == h[..i];
    } else {
      assert h[..i] == h;
    }
  }

  ghost predicate NoneCleared(es: seq<Event>) {
    forall i :: 0 <= i < |es| ==> !es[i].MetaCleared?
  }

  lemma NoneClearedAppend(es: seq<Event>, e: Event)
    ensures NoneCleared(es + [e]) <==> NoneCleared(es) && !e.MetaCleared?
  {
    var all := es + [e];
    assert all[|es|] == e;
    assert forall j :: 0 <= j < |es| ==> all[j] == es[j];
  }

  lemma NoMetaNewer(text: Text, h: seq<Event>, i: nat)
    requires Possible(h) && i < |h| - 1 && h[i].MetaDone? && h[i].request == MetasSent(h)
    ensures var init, last := h[..|h| - 1], h[|h| - 1];
            && MetasSent(init) == MetasSent(h) == Run(text, init).metaId
            && (last.MetaDone? ==> last.request != MetasSent(h))
  {
    var init := h[..|h| - 1];
    IdsCountCalls(text, init);
    assert init[i] == h[i];
    AnsweredWereSent(init, h[i].request);
    assert MetaAnswered(init, h[i].request);
  }

  // Likewise for suggestions and facets: the newest meta request's result stays, until the
  // facets are cleared.
  lemma {:induction false} NewestMetaWins(text: Text, h: seq<Event>, i: nat)
    requires Possible(h) && i < |h| && h[i].MetaDone? && h[i].request == MetasSent(h) && h[i].found.Some?
    ensures var meta, m := Run(text, h).meta, h[i].found.value;
            if NoneCleared(h[i + 1..])
            then meta == if h[i].updateFacets then m else Run(text, h[..i]).meta.(suggestions := m.suggestions)
            else meta == NO_META
    decreases |h|
  {
    var init, last := h[..|h| - 1], h[|h| - 1];
    if i == |h| - 1 {
      IdsCountCalls(text, init);
      assert h[..i] == init;
    } else {
      assert init[i] == h[i] && init[..i] == h[..i];
      assert h[i + 1..] == init[i + 1..] + [last];
      NoneClearedAppend(init[i + 1..], last);
      NoMetaNewer(text, h, i);
      NewestMetaWins(text, init, i);
    }
  }

  // ---------- what the screen shows in every history ----------

  // The response at i succeeded, for the newest search sent until then.
  ghost predicate AppliedAt(h: seq<Event>, i: nat)
    requires i < |h|
  {
    h[i].SearchDone? && h[i].result.Some? && h[i].request == Sent(h[..i])
  }

  // What the event at i makes of the error, if it makes anything of it.
  ghost function ErrorSetAt(h: seq<Event>, i: nat): Option<Option<string>>
    requires i < |h|
  {
    match h[i]
    case SearchSent(_) => Some(None)
    case UpdateSent => Some(None)
    case SearchDone(request, _, result) =>
      if result.None? && request == Sent(h[..i]) then Some(Some("Search failed")) else None
    case UpdateDone(_, updated) => if updated.None? then Some(Some("Update failed")) else None
    case _ => None
  }

  // The response at i brought a result, for the newest meta request sent until then.
  ghost predicate MetaAppliedAt(h: seq<Event>, i: nat)
    requires i < |h|
  {
    h[i].MetaDone? && h[i].found.Some? && h[i].request == MetasSent(h[..i])
  }

  lemma Earlier(h: seq<Event>, j: nat)
    requires j < |h| - 1
    ensures var init := h[..|h| - 1];
            && init[j] == h[j] && init[..j] == h[..j]
            && (AppliedAt(init, j) <==> AppliedAt(h, j)) && ErrorSetAt(init, j) == ErrorSetAt(h, j)
            && (MetaAppliedAt(init, j) <==> MetaAppliedAt(h, j))
  {
    assert h[..|h| - 1][..j] == h[..j];
  }

  lemma {:induction false} NothingToReplace(es: seq<Event>)
    ensures ItemsAfter([], es) == []
  {
    if es != [] { NothingToReplace(es[..|es| - 1]); }
  }

  // The page shown is that of the last search applied, the initial empty page if there is
  // none, changed only by the record updates since, whatever was sent or failed meanwhile.
  lemma {:induction false} ShownIsLastApplied(text: Text, h: seq<Event>, i: int)
    requires -1 <= i < |h| && (i >= 0 ==> AppliedAt(h, i))
    requires forall j :: i < j < |h| ==> !AppliedAt(h, j)
    ensures Run(text, h).shown ==
            if i < 0 then SearchPage([], 1, 25, 0)
            else var p := h[i].result.value; p.(items := ItemsAfter(p.items, h[i + 1..]))
    decreases |h|
  {
    hide AppliedAt;
    if h != [] {
      var init, last := h[..|h| - 1], h[|h| - 1];
      IdsCountCalls(text, init);
      LastApplied(text, h);
      if i == |h| - 1 {
        assert h[i + 1..] == [];
      } else {
        forall j | 0 <= j < |init|
          ensures AppliedAt(init, j) <==> AppliedAt(h, j)
        {
          Earlier(h, j);
        }
        ShownIsLastApplied(text, init, i);
        assert h[i + 1..] == init[i + 1..] + [last];
        assert (init[i + 1..] + [last])[..|init[i + 1..]|] == init[i + 1..];
        NothingToReplace(h);
      }
    }
  }

  // What one event does to the page shown.
  lemma ShownStep(text: Text, v: View, e: Event)
    ensures Apply(text, v, e).shown ==
            if e.SearchDone? && e.result.Some? && e.request == v.searchId then e.result.value
            else if e.UpdateDone? && e.updated.Some?
            then v.shown.(items := Replace(v.shown.items, e.id, e.updated.value))
            else v.shown
  {
    hide Remember, Replace;
  }

  lemma LastApplied(text: Text, h: seq<Event>)
    requires h != []
    ensures var before, last := Run(text, h[..|h| - 1]).shown, h[|h| - 1];
            Run(text, h).shown ==
            if AppliedAt(h, |h| - 1) then last.result.value
            else before.(items := ItemsAfter(before.items, [last]))
  {
    hide Apply, Replace;
    var last := h[|h| - 1];
    IdsCountCalls(text, h[..|h| - 1]);
    ShownStep(text, Run(text, h[..|h| - 1]), last);
    assert [last][..0] == [];
  }

  // The error is what the last event that concerns it made of it.
  lemma {:induction false} ErrorIsLastSet(text: Text, h: seq<Event>, i: int)
    requires -1 <= i < |h| && (i >= 0 ==> ErrorSetAt(h, i).Some?)
    requires forall j :: i < j < |h| ==> ErrorSetAt(h, j).None?
    ensures Run(text, h).error == if i < 0 then None else ErrorSetAt(h, i).value
    decreases |h|
  {
    if h != [] {
      var init := h[..|h| - 1];
      IdsCountCalls(text, init);
      if i < |h| - 1 {
        assert ErrorSetAt(h, |h| - 1).None?;
        forall j | 0 <= j < |init|
          ensures ErrorSetAt(init, j) == ErrorSetAt(h, j)
        {
          Earlier(h, j);
        }
        ErrorIsLastSet(text, init, i);
      }
    }
  }

  // The suggestions are those of the last meta request applied, unless they were cleared
  // since; a meta request that fails, newest or not, leaves them.
  lemma {:induction false} SuggestionsAreLastSet(text: Text, h: seq<Event>, i: int)
    requires -1 <= i < |h| && (i >= 0 ==> MetaAppliedAt(h, i) || h[i].MetaCleared?)
    requires forall j :: i < j < |h| ==> !MetaAppliedAt(h, j) && !h[j].MetaCleared?
    ensures Run(text, h).meta.suggestions == if i < 0 || h[i].MetaCleared? then [] else h[i].found.value.suggestions
    decreases |h|
  {
    if h != [] {
      var init := h[..|h| - 1];
      IdsCountCalls(text, init);
      if i < |h| - 1 {
        assert !MetaAppliedAt(h, |h| - 1);
        forall j | 0 <= j < |init|
          ensures init[j] == h[j] && (MetaAppliedAt(init, j) <==> MetaAppliedAt(h, j))
        {
          Earlier(h, j);
        }
        SuggestionsAreLastSet(text, init, i);
      }
    }
  }

  // So are the facets, of the last one applied that was to update them.
  lemma {:induction false} FacetsAreLastSet(text: Text, h: seq<Event>, i: int)
    requires -1 <= i < |h| && (i >= 0 ==> (MetaAppliedAt(h, i) && h[i].updateFacets) || h[i].MetaCleared?)
    requires forall j :: i < j < |h| ==> !(MetaAppliedAt(h, j) && h[j].updateFacets) && !h[j].MetaCleared?
    ensures var meta := Run(text, h).meta;
            if i < 0 || h[i].MetaCleared? then meta.stores == [] && meta.skus == []
            else meta.stores == h[i].found.value.stores && meta.skus == h[i].found.value.skus
    decreases |h|
  {
    if h != [] {
      var init := h[..|h| - 1];
      IdsCountCalls(text, init);
      if i < |h| - 1 {
        assert !(MetaAppliedAt(h, |h| - 1) && h[|h| - 1].updateFacets);
        forall j | 0 <= j < |init|
          ensures init[j] == h[j] && (MetaAppliedAt(init, j) <==> MetaAppliedAt(h, j))
        {
          Earlier(h, j);
        }
        FacetsAreLastSet(text, init, i);
      }
    }
  }

  // ---------- recent searches ----------

  // The queries remembered since the recents were last cleared, oldest first.
  ghost function Remembered(text: Text, h: seq<Event>): seq<string> {
    if h == [] then []
    else
      var init, last := h[..|h| - 1], h[|h| - 1];
      if last.RecentsCleared? then []
      else if last.SearchDone? && last.request == Sent(init) && last.result.Some? && text.trim(last.q) != ""
      then Remembered(text, init) + [text.trim(last.q)]
      else Remembered(text, init)
  }

  // The list kept, cut to eight at every step, is the first eight of the distinct entries of
  // the whole reversed history, each in its latest spelling.
  lemma {:induction false} RecentsAreLatestDistinct(text: Text, h: seq<Event>)
    ensures Run(text, h).recents == Take(DistinctBy(text.lower, Reverse(Remembered(text, h))), 8)
  {
    if h != [] {
      var init, last := h[..|h| - 1], h[|h| - 1];
      RecentsAreLatestDistinct(text, init);
      IdsCountCalls(text, init);
      if last.SearchDone? && last.request == Sent(init) && last.result.Some? && text.trim(last.q) != "" {
        var q, all := text.trim(last.q), DistinctBy(text.lower, Reverse(Remembered(text, init)));
        ReverseAppend(Remembered(text, init), q);
        assert ([q] + Reverse(Remembered(text, init)))[1..] == Reverse(Remembered(text, init));
        RememberStep(text, all, q, Reverse(Remembered(text, init)));
      }
    }
  }

  lemma RememberStep(text: Text, all: seq<string>, q: string, history: seq<string>)
    requires all == DistinctBy(text.lower, history)
    ensures Remember(text, Take(all, RECENTS), q) == Take([q] + DropKey(text.lower, all, text.lower(q)), RECENTS)
  {
    var k := text.lower(q);
    DistinctByMembers(text.lower, history);
    TruncationLosesNothing(text.lower, all, k, 7);
    TakeCons(q, DropKey(text.lower, Take(all, 8), k), 7);
    TakeCons(q, DropKey(text.lower, all, k), 7);
  }

  // In positions: the recents are chosen of the queries remembered, read from the newest.
  lemma RecentsAreChosen(text: Text, h: seq<Event>)
    ensures FirstEight(text.lower, AllOf(Reverse(Remembered(text, h))), Run(text, h).recents)
  {
    RecentsAreLatestDistinct(text, h);
    DistinctAreChosen(text.lower, Reverse(Remembered(text, h)));
  }
}
