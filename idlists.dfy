/**
 * The list operations the handlers apply to id lists and path lists: parsing and joining a
 * server's comma-separated mod list, the `TryParse` filter of a request batch, LINQ's
 * `Where(Contains)`, `Except`, `List.Remove`, `List.RemoveAll` and `List.Sort`.
 */
module IdLists {
  import opened Wrappers
  import opened Text

  // ------------------------------------------------------------------ membership filters

  /** The elements of `xs` that occur in `ys`, in order (`xs.Where(ys.Contains)`). */
  function Among<T(==)>(xs: seq<T>, ys: seq<T>): (r: seq<T>)
    ensures |r| <= |xs|
  {
    if |xs| == 0 then []
    else
      var p := Among(xs[..|xs| - 1], ys);
      var x := xs[|xs| - 1];
      if x in ys then p + [x] else p
  }

  /** The elements of `xs` that do not occur in `ys`, in order (`RemoveAll(ys.Contains)`). */
  function NotAmong<T(==)>(xs: seq<T>, ys: seq<T>): (r: seq<T>)
    ensures |r| <= |xs|
  {
    if |xs| == 0 then []
    else
      var p := NotAmong(xs[..|xs| - 1], ys);
      var x := xs[|xs| - 1];
      if x in ys then p else p + [x]
  }

  /** Filtering a list grown by one element grows the result by that element when it passes. */
  lemma AmongSnoc<T>(xs: seq<T>, x: T, ys: seq<T>)
    ensures Among(xs + [x], ys) == if x in ys then Among(xs, ys) + [x] else Among(xs, ys)
  {
    assert (xs + [x])[..|xs|] == xs;
  }

  /** Dropping the shared elements of a list grown by one element keeps that element when it is not shared. */
  lemma NotAmongSnoc<T>(xs: seq<T>, x: T, ys: seq<T>)
    ensures NotAmong(xs + [x], ys) == if x in ys then NotAmong(xs, ys) else NotAmong(xs, ys) + [x]
  {
    assert (xs + [x])[..|xs|] == xs;
  }

  /** `Among` keeps every occurrence of the shared elements and nothing else. */
  lemma {:induction false} AmongCount<T>(xs: seq<T>, ys: seq<T>, x: T)
    ensures multiset(Among(xs, ys))[x] == if x in ys then multiset(xs)[x] else 0
  {
    if |xs| > 0 {
      AmongCount(xs[..|xs| - 1], ys, x);
      assert xs == xs[..|xs| - 1] + [xs[|xs| - 1]];
    }
  }

  /** `NotAmong` keeps every occurrence of the other elements and nothing else. */
  lemma {:induction false} NotAmongCount<T>(xs: seq<T>, ys: seq<T>, x: T)
    ensures multiset(NotAmong(xs, ys))[x] == if x in ys then 0 else multiset(xs)[x]
  {
    if |xs| > 0 {
      NotAmongCount(xs[..|xs| - 1], ys, x);
      assert xs == xs[..|xs| - 1] + [xs[|xs| - 1]];
    }
  }

  lemma NotAmongMembers<T>(xs: seq<T>, ys: seq<T>, x: T)
    ensures x in NotAmong(xs, ys) <==> x in xs && x !in ys
  {
    NotAmongCount(xs, ys, x);
  }

  predicate NoDuplicates<T(==)>(xs: seq<T>) {
    forall i, j :: 0 <= i < j < |xs| ==> xs[i] != xs[j]
  }

  /** `xs.Except(ys)`: the distinct elements of `xs` absent from `ys`, in order of first occurrence. */
  function Except<T(==,!new)>(xs: seq<T>, ys: seq<T>): (r: seq<T>)
    ensures forall x :: x in r <==> x in xs && x !in ys
    ensures NoDuplicates(r)
  {
    if |xs| == 0 then []
    else
      var p := Except(xs[..|xs| - 1], ys);
      var x := xs[|xs| - 1];
      assert forall y :: y in xs <==> y in xs[..|xs| - 1] || y == x;
      if x in ys || x in p then p else p + [x]
  }

  /** The elements of `r` come in the order of their first occurrences in `xs`. */
  predicate FirstOccurrenceOrder<T(==)>(r: seq<T>, xs: seq<T>) {
    forall j1, j2 :: 0 <= j1 < j2 < |r| && r[j1] in xs && r[j2] in xs ==>
      IndexOf(xs, r[j1]) < IndexOf(xs, r[j2])
  }

  /** `Except` keeps the order in which its elements first occur in `xs`. */
  lemma {:induction false} ExceptOrder<T(!new)>(xs: seq<T>, ys: seq<T>)
    ensures FirstOccurrenceOrder(Except(xs, ys), xs)
  {
    if |xs| > 0 {
      var n := |xs| - 1;
      var init := xs[..n];
      var p := Except(init, ys);
      var x := xs[n];
      ExceptOrder(init, ys);
      forall y | y in init
        ensures IndexOf(xs, y) == IndexOf(init, y) && IndexOf(xs, y) < n
      {
        IndexOfPrefix(xs, n, y);
      }
      if !(x in ys || x in p) {
        assert x !in init;
        IndexOfIs(xs, x, n);
        var r := p + [x];
        forall j1, j2 | 0 <= j1 < j2 < |r| && r[j1] in xs && r[j2] in xs
          ensures IndexOf(xs, r[j1]) < IndexOf(xs, r[j2])
        {
          assert r[j1] == p[j1] && r[j1] in init;
          if j2 < |p| {
            assert r[j2] == p[j2] && r[j2] in init;
          }
        }
      }
    }
  }

  /** The first position within a prefix is the first position in the whole list. */
  lemma IndexOfPrefix<T>(xs: seq<T>, m: nat, y: T)
    requires m <= |xs| && y in xs[..m]
    ensures IndexOf(xs, y) == IndexOf(xs[..m], y)
  {
    var k := IndexOf(xs[..m], y);
    assert forall j :: 0 <= j <= k ==> xs[j] == xs[..m][j];
    IndexOfIs(xs, y, k);
  }

  /** A position holding `y` with no earlier `y` is `IndexOf`. */
  lemma IndexOfIs<T>(xs: seq<T>, y: T, k: nat)
    requires k < |xs| && xs[k] == y && forall j :: 0 <= j < k ==> xs[j] != y
    ensures IndexOf(xs, y) == k
  {
  }

  /** `list.Remove(x)`: the first occurrence of `x` is taken out, nothing else moves. */
  function RemoveFirst<T(==)>(xs: seq<T>, x: T): (r: seq<T>)
    ensures |r| == if x in xs then |xs| - 1 else |xs|
  {
    if |xs| == 0 then []
    else
      if xs[0] == x then xs[1..] else [xs[0]] + RemoveFirst(xs[1..], x)
  }

  /** The position of the first occurrence of `x`. */
  function IndexOf<T(==)>(xs: seq<T>, x: T): (k: nat)
    requires x in xs
    ensures k < |xs| && xs[k] == x && forall j :: 0 <= j < k ==> xs[j] != x
  {
    if xs[0] == x then 0 else 1 + IndexOf(xs[1..], x)
  }

  /** `Remove` deletes exactly the first occurrence and keeps the order of the rest. */
  lemma RemoveFirstAt<T>(xs: seq<T>, x: T)
    ensures x !in xs ==> RemoveFirst(xs, x) == xs
    ensures x in xs ==> RemoveFirst(xs, x) == xs[..IndexOf(xs, x)] + xs[IndexOf(xs, x) + 1..]
  {
    if x in xs {
      RemoveFirstPresent(xs, x, IndexOf(xs, x));
    } else {
      RemoveFirstAbsent(xs, x);
    }
  }

  lemma {:induction false} RemoveFirstAbsent<T>(xs: seq<T>, x: T)
    requires x !in xs
    ensures RemoveFirst(xs, x) == xs
  {
    if |xs| > 0 {
      RemoveFirstAbsent(xs[1..], x);
      assert xs == [xs[0]] + xs[1..];
    }
  }

  /** With `k` the first position of `x`, `Remove` gives the list without position `k`. */
  lemma {:induction false} RemoveFirstPresent<T>(xs: seq<T>, x: T, k: nat)
    requires k < |xs| && xs[k] == x && forall j :: 0 <= j < k ==> xs[j] != x
    ensures RemoveFirst(xs, x) == xs[..k] + xs[k + 1..]
  {
    if k == 0 {
      assert xs[..0] + xs[1..] == xs[1..];
    } else {
      var tail := xs[1..];
      RemoveFirstPresent(tail, x, k - 1);
      assert xs[..k] == [xs[0]] + tail[..k - 1];
      assert xs[k + 1..] == tail[k..];
    }
  }

  /** `Remove` takes away one copy of `x`, when there is one. */
  lemma {:induction false} RemoveFirstCount<T>(xs: seq<T>, x: T)
    ensures multiset(RemoveFirst(xs, x)) == multiset(xs) - multiset{x}
  {
    if |xs| > 0 {
      RemoveFirstCount(xs[1..], x);
      assert xs == [xs[0]] + xs[1..];
    }
  }

  // ------------------------------------------------------------------ sorting

  predicate Sorted(xs: seq<int>) {
    forall i, j :: 0 <= i < j < |xs| ==> xs[i] <= xs[j]
  }

  function Insert(xs: seq<int>, x: int): (r: seq<int>)
    requires Sorted(xs)
    ensures Sorted(r) && multiset(r) == multiset(xs) + multiset{x}
    ensures r[0] == if |xs| == 0 || x <= xs[0] then x else xs[0]
  {
    if |xs| == 0 then [x]
    else if x <= xs[0] then [x] + xs
    else
      SortedTail(xs);
      var r := Insert(xs[1..], x);
      InsertBehind(xs, x, r);
      [xs[0]] + r
  }

  /** An element above the head goes into the tail: the head stays first and the result is sorted. */
  lemma InsertBehind(xs: seq<int>, x: int, r: seq<int>)
    requires Sorted(xs) && |xs| > 0 && xs[0] < x
    requires Sorted(r) && multiset(r) == multiset(xs[1..]) + multiset{x}
    requires r[0] == if |xs| == 1 || x <= xs[1] then x else xs[1]
    ensures Sorted([xs[0]] + r) && multiset([xs[0]] + r) == multiset(xs) + multiset{x}
  {
    SortedTail(xs);
    SortedCons(xs[0], r);
    assert xs == [xs[0]] + xs[1..];
    assert multiset(xs) == multiset([xs[0]]) + multiset(xs[1..]);
    assert multiset([xs[0]] + r) == multiset([xs[0]]) + multiset(r);
  }

  lemma SortedTail(xs: seq<int>)
    requires Sorted(xs) && |xs| > 0
    ensures Sorted(xs[1..]) && (|xs| > 1 ==> xs[0] <= xs[1])
  {
  }

  /** Putting a lower bound in front of a sorted list keeps it sorted. */
  lemma SortedCons(a: int, r: seq<int>)
    requires Sorted(r) && (|r| > 0 ==> a <= r[0])
    ensures Sorted([a] + r)
  {
  }

  /** `list.Sort()` on integers: ascending, the same elements. */
  function Sort(xs: seq<int>): (r: seq<int>)
    ensures Sorted(r) && multiset(r) == multiset(xs)
  {
    if |xs| == 0 then []
    else
      assert xs == xs[..|xs| - 1] + [xs[|xs| - 1]];
      Insert(Sort(xs[..|xs| - 1]), xs[|xs| - 1])
  }

  // ------------------------------------------------------------------ id lists as text

  /** The tokens of a comma list each read by `int.Parse(id.Trim())`; `None` where one throws. */
  function ParseTokens(tokens: seq<string>): Option<seq<int>> {
    if forall i :: 0 <= i < |tokens| ==> ParseInt(Trim(tokens[i])).Some? then
      Some(seq(|tokens|, i requires 0 <= i < |tokens| => ParseInt(Trim(tokens[i])).value))
    else None
  }

  /** `s.Split(',').Select(id => int.Parse(id.Trim())).ToList()`. */
  function ParseIds(s: string): Option<seq<int>> {
    ParseTokens(SplitOn(s, ","))
  }

  function IdStrings(xs: seq<int>): (r: seq<string>)
    ensures |r| == |xs| && forall i :: 0 <= i < |xs| ==> r[i] == IntToString(xs[i])
  {
    seq(|xs|, i requires 0 <= i < |xs| => IntToString(xs[i]))
  }

  /** `string.Join(",", ids)`. */
  function JoinIds(xs: seq<int>): string {
    Join(IdStrings(xs), ",")
  }

  predicate AllInt32(xs: seq<int>) {
    forall i :: 0 <= i < |xs| ==> IsInt32(xs[i])
  }

  /** Sorting keeps every id in 32 bits, and the number of ids. */
  lemma SortInt32(xs: seq<int>)
    requires AllInt32(xs)
    ensures AllInt32(Sort(xs)) && |Sort(xs)| == |xs|
  {
    var r := Sort(xs);
    assert |r| == |multiset(r)| == |multiset(xs)| == |xs|;
    forall i | 0 <= i < |r| ensures IsInt32(r[i]) {
      assert r[i] in multiset(xs);
    }
  }

  lemma IntToStringFree(n: int, sep: string)
    requires |sep| > 0 && sep[0] != '-' && !IsDigit(sep[0])
    ensures Free(IntToString(n), sep)
  {
  }

  /** One id printed by `ToString` reads back through `Trim` and `int.Parse`. */
  lemma ReadIdToString(n: int)
    requires IsInt32(n)
    ensures ParseInt(Trim(IntToString(n))) == Some(n)
  {
    var s := IntToString(n);
    assert !IsWhite(s[0]) && !IsWhite(s[|s| - 1]);
    TrimUnchanged(s);
    ParseIntToString(n);
  }

  /** A non-empty list written by `string.Join(",", ids)` reads back as the same list. */
  lemma ParseJoinIds(xs: seq<int>)
    requires |xs| >= 1 && AllInt32(xs)
    ensures ParseIds(JoinIds(xs)) == Some(xs)
  {
    var strs := IdStrings(xs);
    forall k | 0 <= k < |strs| ensures Free(strs[k], ",") {
      IntToStringFree(xs[k], ",");
    }
    SplitOnJoin(strs, ",");
    assert SplitOn(JoinIds(xs), ",") == strs;
    forall i | 0 <= i < |strs| ensures ParseInt(Trim(strs[i])) == Some(xs[i]) {
      ReadIdToString(xs[i]);
    }
    ParseTokensValues(strs, xs);
  }

  lemma ParseTokensValues(tokens: seq<string>, xs: seq<int>)
    requires |tokens| == |xs|
    requires forall i :: 0 <= i < |tokens| ==> ParseInt(Trim(tokens[i])) == Some(xs[i])
    ensures ParseTokens(tokens) == Some(xs)
  {
    var r := ParseTokens(tokens);
    assert r.Some?;
    assert r.value == xs;
  }

  /** An empty list is written as "", and "" cannot be read back: `int.Parse("")` throws. */
  lemma EmptyListUnreadable()
    ensures JoinIds([]) == ""
    ensures ParseIds("") == None
  {
    assert SplitOn("", ",") == [""] by {
      assert Find("", ",") == None;
    }
    ParseBlankFails("");
    assert Trim("") == "";
    assert ParseInt(Trim([""][0])) == None;
  }

  /**
   * The ids of a request batch (`s.Split(',').Where(id => int.TryParse(id.Trim(), out _))
   * .Select(int.Parse)`): the tokens that parse, in order, others dropped.
   */
  function ParseBatchTokens(tokens: seq<string>): (r: seq<int>)
    ensures |r| <= |tokens|
  {
    if |tokens| == 0 then []
    else
      var p := ParseBatchTokens(tokens[..|tokens| - 1]);
      match ReadId(tokens[|tokens| - 1])
      case None => p
      case Some(v) => p + [v]
  }

  /** One token of a comma list read by `int.TryParse(token.Trim(), out v)`. */
  function ReadId(token: string): Option<int> {
    ParseInt(Trim(token))
  }

  function ParseBatch(s: string): seq<int> {
    ParseBatchTokens(SplitOn(s, ","))
  }

  /** Some token of `tokens` reads as `v`. */
  predicate SomeTokenReads(tokens: seq<string>, v: int) {
    exists i :: 0 <= i < |tokens| && ReadId(tokens[i]) == Some(v)
  }

  /** A batch keeps an id exactly when some token reads as it. */
  lemma {:induction false} ParseBatchMembers(tokens: seq<string>, v: int)
    ensures v in ParseBatchTokens(tokens) <==> SomeTokenReads(tokens, v)
  {
    if |tokens| > 0 {
      var init := tokens[..|tokens| - 1];
      var last := tokens[|tokens| - 1];
      ParseBatchMembers(init, v);
      assert SomeTokenReads(tokens, v) <==> SomeTokenReads(init, v) || ReadId(last) == Some(v) by {
        if SomeTokenReads(init, v) {
          var i :| 0 <= i < |init| && ReadId(init[i]) == Some(v);
          assert tokens[i] == init[i];
        }
        if SomeTokenReads(tokens, v) {
          var i :| 0 <= i < |tokens| && ReadId(tokens[i]) == Some(v);
          if i < |init| {
            assert init[i] == tokens[i];
          }
        }
      }
    }
  }
}
