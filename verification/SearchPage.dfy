// Suggestions and paging on the search page
// (frontend/packages/app/lib/src/ui/search_page.dart).
module SearchPageUi {
  import opened Prelude
  import opened DistinctLists
  import opened PricingState
  import Api = PricingApi

  // ---------- autocomplete ----------

  predicate OccursAt(s: string, q: string, i: nat)
    requires i <= |s| - |q|
  {
    s[i..i + |q|] == q
  }

  predicate HasSubstring(s: string, q: string) {
    exists i | 0 <= i <= |s| - |q| :: OccursAt(s, q, i)
  }

  ghost predicate Within(q: string, s: string) {
    exists a: string, b: string :: a + q + b == s
  }

  lemma HasSubstringMeans(s: string, q: string)
    ensures HasSubstring(s, q) <==> Within(q, s)
  {
    if HasSubstring(s, q) {
      var i :| 0 <= i <= |s| - |q| && OccursAt(s, q, i);
      assert s[..i] + q + s[i + |q|..] == s;
    }
    if a: string, b: string :| a + q + b == s {
      assert OccursAt(s, q, |a|);
    }
  }

  // The candidate at position i, the suggestions first and then the recents: trimmed, unless
  // that leaves nothing; of the recents only one that contains the query, ignoring case.
  ghost function Offer(text: Text, suggestions: seq<string>, recent: seq<string>, q: string, i: nat): Option<string>
    requires i < |suggestions| + |recent|
  {
    if i < |suggestions| then
      if text.trim(suggestions[i]) == "" then None else Some(text.trim(suggestions[i]))
    else
      var t := text.trim(recent[i - |suggestions|]);
      if t == "" || !Within(q, text.lower(t)) then None else Some(t)
  }

  ghost function Offers(text: Text, suggestions: seq<string>, recent: seq<string>, q: string): (os: seq<Option<string>>)
    ensures |os| == |suggestions| + |recent|
    ensures forall i :: 0 <= i < |os| ==> os[i] == Offer(text, suggestions, recent, q, i)
  {
    seq(|suggestions| + |recent|, i requires 0 <= i < |suggestions| + |recent| => Offer(text, suggestions, recent, q, i))
  }

  // The options listed so far, of the first n offers, at positions that only the proof keeps.
  ghost predicate Listing(text: Text, os: seq<Option<string>>, n: nat, out: seq<string>, at: seq<nat>)
    requires n <= |os|
  {
    Chosen(text.lower, os[..n], out, at)
  }

  lemma Skip(text: Text, os: seq<Option<string>>, n: nat, out: seq<string>, at: seq<nat>)
    requires n < |os| && Listing(text, os, n, out, at) && |out| < 8 && os[n].None?
    ensures Listing(text, os, n + 1, out, at)
  {
    hide Chosen;
    ChosenNext(text.lower, os[..n], out, at, None);
    assert os[..n + 1] == os[..n] + [os[n]];
  }

  // A text is listed unless its key was seen before.
  method AddOption(text: Text, out: seq<string>, seen: set<string>, t: string,
                   ghost os: seq<Option<string>>, ghost n: nat, ghost at: seq<nat>)
    returns (out': seq<string>, seen': set<string>, ghost at': seq<nat>)
    requires n < |os| && os[n] == Some(t) && Listing(text, os, n, out, at) && |out| < 8
    requires forall k :: k in seen <==> KeyIn(text.lower, out, k)
    ensures Listing(text, os, n + 1, out', at') && |out'| <= 8
    ensures forall k :: k in seen' <==> KeyIn(text.lower, out', k)
  {
    hide Chosen;
    out', seen', at' := out, seen, at;
    var k := text.lower(t);
    ChosenNext(text.lower, os[..n], out, at, os[n]);
    assert os[..n + 1] == os[..n] + [os[n]];
    if k !in seen {
      seen', out', at' := seen + {k}, out + [t], at + [n];
      KeyInAppend(text.lower, out, t);
    }
  }

  // The options of the search box. With nothing typed, the first eight recents; otherwise
  // what is chosen of the offers.
  method OptionsBuilder(text: Text, typed: string, suggestions: seq<string>, recent: seq<string>)
    returns (out: seq<string>)
    ensures var q := text.lower(text.trim(typed));
            if q == "" then out == if |recent| <= 8 then recent else recent[..8]
            else FirstEight(text.lower, Offers(text, suggestions, recent, q), out)
  {
    hide Chosen;
    var q := text.lower(text.trim(typed));
    if q == "" {
      return Take(recent, 8);
    }
    ghost var at: seq<nat> := [];
    ghost var os := Offers(text, suggestions, recent, q);
    var seen: set<string> := {};
    out := [];
    ChosenNone(text.lower);
    for i := 0 to |suggestions|
      invariant Listing(text, os, i, out, at) && |out| < 8
      invariant forall k :: k in seen <==> KeyIn(text.lower, out, k)
    {
      var t := text.trim(suggestions[i]);
      if t == "" {
        Skip(text, os, i, out, at);
      } else {
        out, seen, at := AddOption(text, out, seen, t, os, i, at);
        if |out| >= 8 {
          ChosenFull(text.lower, os, i + 1, out, at);
          return;
        }
      }
    }
    for i := 0 to |recent|
      invariant Listing(text, os, |suggestions| + i, out, at) && |out| < 8
      invariant forall k :: k in seen <==> KeyIn(text.lower, out, k)
    {
      var t := text.trim(recent[i]);
      HasSubstringMeans(text.lower(t), q);
      if t == "" || !HasSubstring(text.lower(t), q) {
        Skip(text, os, |suggestions| + i, out, at);
      } else {
        out, seen, at := AddOption(text, out, seen, t, os, |suggestions| + i, at);
        if |out| >= 8 {
          ChosenFull(text.lower, os, |suggestions| + i + 1, out, at);
          return;
        }
      }
    }
    assert os[..|os|] == os;
  }

  // ---------- paging ----------

  function Ceil(total: nat, perPage: nat): nat
    requires perPage > 0
  {
    (total + perPage - 1) / perPage
  }

  predicate CanGoNext(total: int, perPage: nat, page: nat)
    requires perPage > 0
  {
    total > 0 && page < Ceil(total, perPage)
  }

  // The pages fetched from `page` on by pressing Next as long as it is offered.
  function Walk<T>(rows: seq<T>, perPage: nat, page: nat): seq<seq<T>>
    requires perPage > 0 && page > 0
    decreases |rows| - page
  {
    [Api.PageSlice(rows, page, perPage)] +
    if CanGoNext(|rows|, perPage, page) && page < |rows| then Walk(rows, perPage, page + 1) else []
  }

  function Concat<T>(pages: seq<seq<T>>): seq<T> {
    if pages == [] then [] else pages[0] + Concat(pages[1..])
  }

  // Next is offered exactly when the page ends before the list does.
  lemma CanGoNextExactlyWhen(total: nat, perPage: nat, page: nat)
    requires perPage > 0 && page > 0
    ensures CanGoNext(total, perPage, page) <==> page * perPage < total
    ensures CanGoNext(total, perPage, page) ==> page < total
  {
    var n := Ceil(total, perPage);
    assert total + perPage - 1 == perPage * n + (total + perPage - 1) % perPage;
    if page < n {
      MulMonotone(perPage, page + 1, n);
      assert (page + 1) * perPage == page * perPage + perPage;
      MulMonotone(page, 1, perPage);
    } else {
      MulMonotone(perPage, n, page);
    }
  }

  lemma MulMonotone(k: nat, a: nat, b: nat)
    requires a <= b
    ensures k * a <= k * b
  {
  }

  lemma SliceSplits<T>(rows: seq<T>, start: nat, perPage: nat)
    requires start <= |rows|
    ensures if start + perPage < |rows| then Api.Slice(rows, start, perPage) + rows[start + perPage..] == rows[start..]
            else Api.Slice(rows, start, perPage) == rows[start..]
  {
  }

  lemma ConcatCons<T>(page: seq<T>, pages: seq<seq<T>>)
    ensures Concat([page] + pages) == page + Concat(pages)
  {
    assert ([page] + pages)[1..] == pages;
  }

  // One page, from its offset on.
  lemma PageAt<T>(rows: seq<T>, perPage: nat, page: nat, start: nat)
    requires perPage > 0 && page > 0 && start == (page - 1) * perPage <= |rows|
    ensures page * perPage == start + perPage
    ensures CanGoNext(|rows|, perPage, page) <==> start + perPage < |rows|
    ensures Walk(rows, perPage, page) ==
            [Api.Slice(rows, start, perPage)] + if start + perPage < |rows| then Walk(rows, perPage, page + 1) else []
  {
    hide Ceil;
    CanGoNextExactlyWhen(|rows|, perPage, page);
  }

  lemma {:induction false} WalkFrom<T>(rows: seq<T>, perPage: nat, page: nat, start: nat)
    requires perPage > 0 && page > 0 && start == (page - 1) * perPage <= |rows|
    ensures Concat(Walk(rows, perPage, page)) == rows[start..]
    decreases |rows| - start
  {
    hide Concat, Walk, CanGoNext, Api.Slice;
    PageAt(rows, perPage, page, start);
    SliceSplits(rows, start, perPage);
    var slice := Api.Slice(rows, start, perPage);
    if start + perPage < |rows| {
      WalkFrom(rows, perPage, page + 1, start + perPage);
      ConcatCons(slice, Walk(rows, perPage, page + 1));
    } else {
      ConcatCons(slice, []);
      NoPages<T>();
      assert [slice] + [] == [slice] && slice + [] == slice;
    }
  }

  lemma NoPages<T>()
    ensures Concat<T>([]) == []
  {
  }

  // Walking from page 1 while Next is offered ends, and fetches the whole list in order,
  // nothing skipped and nothing twice.
  lemma WalkFetchesEverything<T>(rows: seq<T>, perPage: nat)
    requires perPage > 0
    ensures Concat(Walk(rows, perPage, 1)) == rows
    ensures |Walk(rows, perPage, 1)| == if rows == [] then 1 else Ceil(|rows|, perPage)
  {
    WalkFrom(rows, perPage, 1, 0);
    WalkLength(rows, perPage, 1);
  }

  lemma {:induction false} WalkLength<T>(rows: seq<T>, perPage: nat, page: nat)
    requires perPage > 0 && page > 0
    ensures |Walk(rows, perPage, page)| == if page < Ceil(|rows|, perPage) then Ceil(|rows|, perPage) - page + 1 else 1
    decreases |rows| - page
  {
    CanGoNextExactlyWhen(|rows|, perPage, page);
    if CanGoNext(|rows|, perPage, page) {
      WalkLength(rows, perPage, page + 1);
    }
  }
}
