// Lists without repeats: the first occurrence of each key, in order.
module DistinctLists {
  import opened Prelude

  // xs without the elements that have key k.
  function DropKey(key: string -> string, xs: seq<string>, k: string): seq<string> {
    if xs == [] then []
    else (if key(xs[0]) == k then [] else [xs[0]]) + DropKey(key, xs[1..], k)
  }

  // The first occurrence of each key.
  function DistinctBy(key: string -> string, xs: seq<string>): seq<string> {
    if xs == [] then []
    else [xs[0]] + DropKey(key, DistinctBy(key, xs[1..]), key(xs[0]))
  }

  function Reverse<T>(xs: seq<T>): seq<T> {
    if xs == [] then [] else Reverse(xs[1..]) + [xs[0]]
  }

  lemma {:induction false} ReverseAppend<T>(xs: seq<T>, x: T)
    ensures Reverse(xs + [x]) == [x] + Reverse(xs)
  {
    if xs != [] {
      assert (xs + [x])[1..] == xs[1..] + [x];
      ReverseAppend(xs[1..], x);
    }
  }

  ghost predicate KeyIn(key: string -> string, xs: seq<string>, k: string) {
    exists x :: x in xs && key(x) == k
  }

  ghost predicate KeysApart(key: string -> string, xs: seq<string>) {
    forall i, j :: 0 <= i < j < |xs| ==> key(xs[i]) != key(xs[j])
  }

  lemma {:induction false} DropKeyMembers(key: string -> string, xs: seq<string>, k: string)
    ensures forall x :: x in DropKey(key, xs, k) <==> x in xs && key(x) != k
  {
    if xs != [] {
      assert xs == [xs[0]] + xs[1..];
      DropKeyMembers(key, xs[1..], k);
    }
  }

  lemma {:induction false} DropKeyApart(key: string -> string, xs: seq<string>, k: string)
    requires KeysApart(key, xs)
    ensures KeysApart(key, DropKey(key, xs, k))
  {
    if xs != [] {
      DropKeyApart(key, xs[1..], k);
      DropKeyMembers(key, xs[1..], k);
      var rest := DropKey(key, xs[1..], k);
      forall i | 0 <= i < |rest|
        ensures key(rest[i]) != key(xs[0])
      {
        assert rest[i] in xs[1..];
      }
    }
  }

  lemma {:induction false} DropKeyAbsent(key: string -> string, xs: seq<string>, k: string)
    requires !KeyIn(key, xs, k)
    ensures DropKey(key, xs, k) == xs
  {
    if xs != [] {
      assert xs == [xs[0]] + xs[1..];
      DropKeyAbsent(key, xs[1..], k);
    }
  }

  lemma {:induction false} DropKeyAppend(key: string -> string, xs: seq<string>, x: string, k: string)
    ensures DropKey(key, xs + [x], k) == DropKey(key, xs, k) + if key(x) == k then [] else [x]
  {
    if xs == [] {
      assert xs + [x] == [x];
    } else {
      assert (xs + [x])[0] == xs[0] && (xs + [x])[1..] == xs[1..] + [x];
      DropKeyAppend(key, xs[1..], x, k);
      var head, last := if key(xs[0]) == k then [] else [xs[0]], if key(x) == k then [] else [x];
      assert head + (DropKey(key, xs[1..], k) + last) == (head + DropKey(key, xs[1..], k)) + last;
    }
  }

  lemma KeyInCons(key: string -> string, x: string, xs: seq<string>, k: string)
    ensures KeyIn(key, [x] + xs, k) <==> key(x) == k || KeyIn(key, xs, k)
  {
    if KeyIn(key, xs, k) {
      var y :| y in xs && key(y) == k;
      assert y in [x] + xs;
    }
    assert x in [x] + xs;
  }

  lemma KeyInAppend(key: string -> string, xs: seq<string>, x: string)
    ensures forall k :: KeyIn(key, xs + [x], k) <==> KeyIn(key, xs, k) || key(x) == k
  {
    forall k
      ensures KeyIn(key, xs + [x], k) <==> KeyIn(key, xs, k) || key(x) == k
    {
      if KeyIn(key, xs, k) {
        var y :| y in xs && key(y) == k;
        assert y in xs + [x];
      }
      assert x in xs + [x];
    }
  }

  // Reading from the left with a set of seen keys gives the same list.
  lemma {:induction false} DistinctByAppend(key: string -> string, xs: seq<string>, x: string)
    ensures DistinctBy(key, xs + [x]) == DistinctBy(key, xs) + if KeyIn(key, xs, key(x)) then [] else [x]
  {
    if xs == [] {
      assert xs + [x] == [x];
    } else {
      var first, tail := xs[0], xs[1..];
      var inner := DistinctBy(key, tail);
      assert (xs + [x])[0] == first && (xs + [x])[1..] == tail + [x];
      assert xs == [first] + tail;
      DistinctByAppend(key, tail, x);
      KeyInCons(key, first, tail, key(x));
      DropKeyAppend(key, inner, x, key(first));
      if KeyIn(key, tail, key(x)) {
        assert inner + [] == inner;
      } else {
        assert [first] + (DropKey(key, inner, key(first)) + [x]) == [first] + DropKey(key, inner, key(first)) + [x];
      }
    }
  }

  lemma {:induction false} DistinctByMembers(key: string -> string, xs: seq<string>)
    ensures KeysApart(key, DistinctBy(key, xs))
    ensures forall x :: x in DistinctBy(key, xs) ==> x in xs
    ensures forall k :: KeyIn(key, xs, k) <==> KeyIn(key, DistinctBy(key, xs), k)
  {
    if xs != [] {
      var first, inner := xs[0], DistinctBy(key, xs[1..]);
      assert xs == [first] + xs[1..];
      DistinctByMembers(key, xs[1..]);
      DropKeyMembers(key, inner, key(first));
      DropKeyApart(key, inner, key(first));
      var rest := DropKey(key, inner, key(first));
      assert DistinctBy(key, xs) == [first] + rest;
      assert forall i :: 0 <= i < |rest| ==> rest[i] in rest;
      forall k
        ensures KeyIn(key, xs, k) <==> KeyIn(key, DistinctBy(key, xs), k)
      {
        KeyInCons(key, first, xs[1..], k);
        KeyInCons(key, first, rest, k);
        if k != key(first) && KeyIn(key, inner, k) {
          var y :| y in inner && key(y) == k;
          assert y in rest;
        }
        if KeyIn(key, rest, k) {
          var y :| y in rest && key(y) == k;
          assert y in inner;
        }
      }
    }
  }

  lemma TakeCons(x: string, xs: seq<string>, n: nat)
    ensures Take([x] + xs, n + 1) == [x] + Take(xs, n)
  {
  }

  lemma DropKeyCons(key: string -> string, x: string, xs: seq<string>, k: string)
    ensures DropKey(key, [x] + xs, k) == (if key(x) == k then [] else [x]) + DropKey(key, xs, k)
  {
    assert ([x] + xs)[1..] == xs;
  }

  lemma DropNothing(key: string -> string, xs: seq<string>, k: string, n: nat)
    requires !KeyIn(key, xs, k)
    ensures DropKey(key, xs, k) == xs && DropKey(key, Take(xs, n), k) == Take(xs, n)
  {
    assert forall y :: y in Take(xs, n) ==> y in xs;
    DropKeyAbsent(key, xs, k);
    DropKeyAbsent(key, Take(xs, n), k);
  }

  lemma HeadKeyOnce(key: string -> string, x: string, xs: seq<string>)
    requires KeysApart(key, [x] + xs)
    ensures KeysApart(key, xs) && !KeyIn(key, xs, key(x))
  {
    var all := [x] + xs;
    assert forall i :: 0 <= i < |xs| ==> xs[i] == all[i + 1];
    forall y | y in xs
      ensures key(y) != key(x)
    {
      var i :| 0 <= i < |xs| && xs[i] == y;
      assert key(all[0]) != key(all[i + 1]);
    }
  }

  // Cutting to n + 1 elements before one key is dropped loses nothing of the first n.
  lemma {:induction false} TruncationLosesNothing(key: string -> string, xs: seq<string>, k: string, n: nat)
    requires KeysApart(key, xs)
    ensures Take(DropKey(key, Take(xs, n + 1), k), n) == Take(DropKey(key, xs, k), n)
  {
    if xs != [] && n > 0 {
      var first, tail := xs[0], xs[1..];
      assert xs == [first] + tail;
      HeadKeyOnce(key, first, tail);
      TakeCons(first, tail, n);
      DropKeyCons(key, first, tail, k);
      DropKeyCons(key, first, Take(tail, n), k);
      if key(first) == k {
        DropNothing(key, tail, k, n);
      } else {
        TruncationLosesNothing(key, tail, k, n - 1);
        TakeCons(first, DropKey(key, tail, k), n - 1);
        TakeCons(first, DropKey(key, Take(tail, n), k), n - 1);
      }
    }
  }

  // ---------- choosing from a list of offers ----------

  // Some of the offers, None being no offer, in order: those at the positions `at`.
  ghost predicate Picked(os: seq<Option<string>>, out: seq<string>, at: seq<nat>) {
    && |at| == |out|
    && (forall m, n :: 0 <= m < n < |at| ==> at[m] < at[n])
    && (forall n :: 0 <= n < |out| ==> at[n] < |os| && os[at[n]] == Some(out[n]))
  }

  // The key k is listed, by an offer up to position i.
  ghost predicate ListedBy(key: string -> string, out: seq<string>, at: seq<nat>, i: nat, k: string) {
    exists n :: 0 <= n < |out| && n < |at| && at[n] <= i && key(out[n]) == k
  }

  ghost predicate Covers(key: string -> string, os: seq<Option<string>>, out: seq<string>, at: seq<nat>) {
    forall i :: 0 <= i < |os| && os[i].Some? ==>
      (|at| == 8 && at[7] < i) || ListedBy(key, out, at, i, key(os[i].value))
  }

  // What is listed: at most eight of the offers, in order, no two with one key; and each
  // offer is listed itself or by an earlier one with its key, unless it comes after the
  // last of eight.
  ghost predicate Chosen(key: string -> string, os: seq<Option<string>>, out: seq<string>, at: seq<nat>) {
    |out| <= 8 && Picked(os, out, at) && KeysApart(key, out) && Covers(key, os, out, at)
  }

  ghost predicate FirstEight(key: string -> string, os: seq<Option<string>>, out: seq<string>) {
    exists at: seq<nat> :: Chosen(key, os, out, at)
  }

  // There is only one way to choose.
  lemma FirstEightUnique(key: string -> string, os: seq<Option<string>>, out: seq<string>, out': seq<string>)
    requires FirstEight(key, os, out) && FirstEight(key, os, out')
    ensures out == out'
  {
    hide Chosen;
    var at: seq<nat> :| Chosen(key, os, out, at);
    var at': seq<nat> :| Chosen(key, os, out', at');
    if |out| <= |out'| {
      SamePrefix(key, os, out, at, out', at', |out|);
      if |out| < |out'| {
        NotSkipped(key, os, out, at, out', at', |out|);
      }
    } else {
      SamePrefix(key, os, out, at, out', at', |out'|);
      NotSkipped(key, os, out', at', out, at, |out'|);
    }
  }

  lemma {:induction false} SamePrefix(key: string -> string, os: seq<Option<string>>,
                                      out: seq<string>, at: seq<nat>, out': seq<string>, at': seq<nat>, n: nat)
    requires Chosen(key, os, out, at) && Chosen(key, os, out', at')
    requires n <= |out| && n <= |out'|
    ensures out[..n] == out'[..n]
  {
    hide Chosen;
    if n > 0 {
      SamePrefix(key, os, out, at, out', at', n - 1);
      NotSkipped(key, os, out, at, out', at', n - 1);
      NotSkipped(key, os, out', at', out, at, n - 1);
      assert out[..n] == out[..n - 1] + [out[n - 1]] && out'[..n] == out'[..n - 1] + [out'[n - 1]];
    }
  }

  // Where two choices agree up to n, the first has an n-th, no later than the other's.
  lemma NotSkipped(key: string -> string, os: seq<Option<string>>,
                   out: seq<string>, at: seq<nat>, out': seq<string>, at': seq<nat>, n: nat)
    requires Chosen(key, os, out, at) && Chosen(key, os, out', at')
    requires n <= |out| && n < |out'| && out[..n] == out'[..n]
    ensures |at| == |out| && |at'| == |out'| && n < |out| && at[n] <= at'[n]
    ensures at[n] == at'[n] ==> out[n] == out'[n]
  {
    var i, k := at'[n], key(out'[n]);
    assert os[i] == Some(out'[n]);
    if |at| < 8 || i <= at[7] {
      assert ListedBy(key, out, at, i, k);
      ListedLater(key, out, at, out', i, n);
    }
  }

  lemma ListedLater(key: string -> string, out: seq<string>, at: seq<nat>, out': seq<string>, i: nat, n: nat)
    requires |at| == |out| && (forall m, n :: 0 <= m < n < |at| ==> at[m] < at[n])
    requires n <= |out| && n < |out'| && out[..n] == out'[..n] && KeysApart(key, out')
    requires ListedBy(key, out, at, i, key(out'[n]))
    ensures n < |out| && at[n] <= i
  {
    assert forall j :: 0 <= j < n ==> out[..n][j] == out'[..n][j];
    var m :| 0 <= m < |out| && m < |at| && at[m] <= i && key(out[m]) == key(out'[n]);
  }

  lemma ChosenNone(key: string -> string)
    ensures Chosen(key, [], [], [])
  {
  }

  // One more offer is listed unless its key is.
  lemma ChosenNext(key: string -> string, os: seq<Option<string>>, out: seq<string>, at: seq<nat>, o: Option<string>)
    requires Chosen(key, os, out, at) && |out| < 8
    ensures if o.None? || KeyIn(key, out, key(o.value)) then Chosen(key, os + [o], out, at)
            else Chosen(key, os + [o], out + [o.value], at + [|os|])
  {
    hide Picked, Covers, KeysApart;
    if o.None? || KeyIn(key, out, key(o.value)) {
      PickedNext(os, out, at, o);
      CoversNext(key, os, out, at, o, out, at);
    } else {
      PickedNext(os, out, at, o);
      KeysApartNext(key, out, o.value);
      CoversNext(key, os, out, at, o, out + [o.value], at + [|os|]);
    }
  }

  lemma PickedNext(os: seq<Option<string>>, out: seq<string>, at: seq<nat>, o: Option<string>)
    requires Picked(os, out, at)
    ensures Picked(os + [o], out, at) && (o.Some? ==> Picked(os + [o], out + [o.value], at + [|os|]))
  {
  }

  lemma KeysApartNext(key: string -> string, out: seq<string>, x: string)
    requires KeysApart(key, out) && !KeyIn(key, out, key(x))
    ensures KeysApart(key, out + [x])
  {
    assert forall n :: 0 <= n < |out| ==> out[n] in out && key(out[n]) != key(x);
  }

  lemma CoversNext(key: string -> string, os: seq<Option<string>>, out: seq<string>, at: seq<nat>,
                   o: Option<string>, out': seq<string>, at': seq<nat>)
    requires |out| < 8 && Picked(os, out, at) && Covers(key, os, out, at) && |at'| == |out'|
    requires if o.None? || KeyIn(key, out, key(o.value)) then out' == out && at' == at
             else out' == out + [o.value] && at' == at + [|os|]
    ensures Covers(key, os + [o], out', at')
  {
    forall i | 0 <= i <= |os| && (os + [o])[i].Some?
      ensures ListedBy(key, out', at', i, key((os + [o])[i].value))
    {
      if i < |os| {
        assert ListedBy(key, out, at, i, key(os[i].value));
        var n :| 0 <= n < |out| && n < |at| && at[n] <= i && key(out[n]) == key(os[i].value);
        assert out'[n] == out[n] && at'[n] == at[n];
      } else if KeyIn(key, out, key(o.value)) {
        var x :| x in out && key(x) == key(o.value);
        var n :| 0 <= n < |out| && out[n] == x;
        assert at[n] < |os|;
      } else {
        assert out'[|out|] == o.value && at'[|out|] == |os|;
      }
    }
  }

  // Once eight are listed, the offers left do not matter.
  lemma ChosenFull(key: string -> string, os: seq<Option<string>>, n: nat, out: seq<string>, at: seq<nat>)
    requires n <= |os| && Chosen(key, os[..n], out, at) && |out| == 8
    ensures Chosen(key, os, out, at)
  {
    forall i | 0 <= i < |os| && os[i].Some?
      ensures at[7] < i || ListedBy(key, out, at, i, key(os[i].value))
    {
      if i < n {
        assert os[..n][i] == os[i];
      }
    }
    assert forall m :: 0 <= m < |out| ==> os[..n][at[m]] == os[at[m]];
  }

  // Every element an offer.
  function AllOf(xs: seq<string>): (os: seq<Option<string>>)
    ensures |os| == |xs| && forall i :: 0 <= i < |xs| ==> os[i] == Some(xs[i])
  {
    seq(|xs|, i requires 0 <= i < |xs| => Some(xs[i]))
  }

  // The first eight distinct elements are what is chosen of them all.
  lemma DistinctAreChosen(key: string -> string, xs: seq<string>)
    ensures FirstEight(key, AllOf(xs), Take(DistinctBy(key, xs), 8))
  {
    var at := DistinctAt(key, xs, |xs|);
    assert xs[..|xs|] == xs;
  }

  lemma {:induction false} DistinctAt(key: string -> string, xs: seq<string>, n: nat) returns (at: seq<nat>)
    requires n <= |xs|
    ensures Chosen(key, AllOf(xs[..n]), Take(DistinctBy(key, xs[..n]), 8), at)
  {
    hide Chosen, DistinctBy, AllOf;
    if n == 0 {
      at := [];
      NothingDistinct(key, xs);
    } else {
      var init, x := xs[..n - 1], xs[n - 1];
      at := DistinctAt(key, xs, n - 1);
      assert xs[..n] == init + [x];
      assert AllOf(xs[..n]) == AllOf(init) + [Some(x)];
      assert AllOf(xs[..n])[..n - 1] == AllOf(init);
      var all := DistinctBy(key, init);
      DistinctByAppend(key, init, x);
      if |all| >= 8 {
        assert Take(DistinctBy(key, xs[..n]), 8) == all[..8] == Take(all, 8);
        ChosenFull(key, AllOf(xs[..n]), n - 1, Take(all, 8), at);
      } else {
        DistinctByMembers(key, init);
        assert all + [] == all && Take(all, 8) == all;
        ChosenNext(key, AllOf(init), all, at, Some(x));
        at := if KeyIn(key, all, key(x)) then at else at + [n - 1];
      }
    }
  }

  lemma NothingDistinct(key: string -> string, xs: seq<string>)
    ensures Chosen(key, AllOf(xs[..0]), Take(DistinctBy(key, xs[..0]), 8), [])
  {
    ChosenNone(key);
  }
}
