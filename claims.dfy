/**
 * A user's personal stock of mod slots (`User.ClaimedMods`): a text `id[count],id[count],…`
 * that each handler decodes into a dictionary from mod id to slot count, adjusts, and
 * writes back.
 */
module ClaimCodec {
  import opened Wrappers
  import opened Text

  /** Mod id to number of slots held in stock. */
  type Claims = map<int, int>

  // ------------------------------------------------------------------ decoding

  /**
   * One entry: trimmed, split on '[' into exactly two pieces, the first an integer, the
   * second an integer once its trailing ']' characters are stripped.
   */
  function ParseEntry(entry: string): (r: Option<(int, int)>)
    ensures r.Some? ==> IsInt32(r.value.0) && IsInt32(r.value.1)
  {
    var parts := SplitOn(Trim(entry), "[");
    if |parts| != 2 then None
    else
      match ParseInt(parts[0])
      case None => None
      case Some(id) =>
        match ParseInt(TrimEndChar(parts[1], ']'))
        case None => None
        case Some(count) => Some((id, count))
  }

  /** Every entry of the list, read. */
  function ParsedEntries(entries: seq<string>): (ps: seq<Option<(int, int)>>)
    ensures |ps| == |entries| && forall i :: 0 <= i < |entries| ==> ps[i] == ParseEntry(entries[i])
  {
    seq(|entries|, i requires 0 <= i < |entries| => ParseEntry(entries[i]))
  }

  /** Read entries folded left to right into the dictionary: `dict[id] = count` for each good one. */
  function DecodePairs(ps: seq<Option<(int, int)>>): Claims {
    if |ps| == 0 then map[]
    else
      var m := DecodePairs(ps[..|ps| - 1]);
      match ps[|ps| - 1]
      case None => m
      case Some(e) => m[e.0 := e.1]
  }

  /** The dictionary a handler builds from `ClaimedMods`; blank text gives the empty one. */
  function Decode(s: string): Claims {
    if IsBlank(s) then map[] else DecodePairs(ParsedEntries(SplitOn(s, ",")))
  }

  /** The parse loop the handlers run over `ClaimedMods.Split(',')`. */
  method ParseClaimedMods(s: string) returns (m: Claims)
    ensures m == Decode(s)
  {
    m := map[];
    if !IsBlank(s) {
      var entries := SplitOn(s, ",");
      ghost var ps := ParsedEntries(entries);
      var i := 0;
      while i < |entries|
        invariant 0 <= i <= |entries|
        invariant m == DecodePairs(ps[..i])
      {
        assert ps[..i + 1][..i] == ps[..i];
        var e := ParseEntry(entries[i]);
        assert e == ps[i];
        if e.Some? {
          m := m[e.value.0 := e.value.1];
        }
        i := i + 1;
      }
      assert ps[..|entries|] == ps;
    }
  }

  /** The read entry `p` is a good entry for id `k`. */
  predicate Names(p: Option<(int, int)>, k: int) {
    p.Some? && p.value.0 == k
  }

  /**
   * Decoding keeps exactly the ids that some good entry names, and each keeps the count of
   * the last good entry naming it; malformed entries are skipped.
   */
  lemma {:induction false} DecodeLastWins(ps: seq<Option<(int, int)>>, k: int)
    ensures k in DecodePairs(ps) <==> exists i :: 0 <= i < |ps| && Names(ps[i], k)
    ensures k in DecodePairs(ps) ==>
      exists i :: 0 <= i < |ps| && ps[i] == Some((k, DecodePairs(ps)[k])) &&
        forall j :: i < j < |ps| ==> !Names(ps[j], k)
  {
    DecodeNamed(ps, k);
    if |ps| > 0 {
      var n := |ps| - 1;
      var init := ps[..n];
      DecodeLastWins(init, k);
      var m := DecodePairs(ps);
      if Names(ps[n], k) {
        assert ps[n] == Some((k, m[k]));
      } else if k in m {
        assert m[k] == DecodePairs(init)[k];
        var i :| 0 <= i < n && init[i] == Some((k, m[k])) &&
          forall j :: i < j < n ==> !Names(init[j], k);
        assert ps[i] == Some((k, m[k]));
      }
    }
  }

  /** An id is decoded exactly when some good entry names it. */
  lemma {:induction false} DecodeNamed(ps: seq<Option<(int, int)>>, k: int)
    ensures k in DecodePairs(ps) <==> exists i :: 0 <= i < |ps| && Names(ps[i], k)
  {
    if |ps| > 0 {
      var n := |ps| - 1;
      var init := ps[..n];
      DecodeNamed(init, k);
      if !Names(ps[n], k) {
        if exists i :: 0 <= i < |ps| && Names(ps[i], k) {
          var i :| 0 <= i < |ps| && Names(ps[i], k);
          assert Names(init[i], k);
        }
        if k in DecodePairs(init) {
          var i :| 0 <= i < n && Names(init[i], k);
          assert Names(ps[i], k);
        }
      }
    }
  }

  /** Every id and count read from the text fits in 32 bits. */
  lemma DecodeInt32(s: string)
    ensures InInt32Range(Decode(s))
  {
    if !IsBlank(s) {
      DecodePairsInt32(ParsedEntries(SplitOn(s, ",")));
    }
  }

  lemma {:induction false} DecodePairsInt32(ps: seq<Option<(int, int)>>)
    requires forall i :: 0 <= i < |ps| && ps[i].Some? ==> IsInt32(ps[i].value.0) && IsInt32(ps[i].value.1)
    ensures InInt32Range(DecodePairs(ps))
  {
    if |ps| > 0 {
      DecodePairsInt32(ps[..|ps| - 1]);
    }
  }

  // ------------------------------------------------------------------ encoding

  lemma {:induction false} MaxExists(keys: set<int>)
    requires keys != {}
    ensures exists k :: k in keys && forall j :: j in keys ==> j <= k
  {
    assert exists x :: x in keys by { NonEmptyHasMember(keys); }
    var x :| x in keys;
    if keys != {x} {
      var rest := keys - {x};
      MaxExists(rest);
      var y :| y in rest && forall j :: j in rest ==> j <= y;
      var top := if x < y then y else x;
      forall j | j in keys ensures j <= top {
        if j != x {
          assert j in rest;
        }
      }
      assert top in keys;
    } else {
      assert forall j :: j in keys ==> j <= x;
    }
  }

  lemma NonEmptyHasMember(keys: set<int>)
    requires keys != {}
    ensures exists x :: x in keys
  {
    if forall x :: x !in keys {
      assert false;
    }
  }

  /** The largest id of a non-empty key set. */
  function MaxKey(keys: set<int>): (k: int)
    requires keys != {}
    ensures k in keys && forall j :: j in keys ==> j <= k
  {
    MaxExists(keys);
    var k: int :| k in keys && forall j :: j in keys ==> j <= k;
    k
  }

  /** The dictionary's pairs with ids ascending. */
  function Entries(m: Claims): seq<(int, int)>
    decreases |m|
  {
    if |m| == 0 then []
    else
      var k := MaxKey(m.Keys);
      var rest := m - {k};
      assert rest.Keys == m.Keys - {k};
      Entries(rest) + [(k, m[k])]
  }

  /** `Entries` lists every pair of the dictionary once, ids strictly ascending. */
  lemma {:induction false} EntriesSpec(m: Claims)
    ensures |Entries(m)| == |m|
    ensures forall i :: 0 <= i < |Entries(m)| ==> Entries(m)[i].0 in m && m[Entries(m)[i].0] == Entries(m)[i].1
    ensures forall i, j :: 0 <= i < j < |Entries(m)| ==> Entries(m)[i].0 < Entries(m)[j].0
    decreases |m|
  {
    if |m| > 0 {
      var k := MaxKey(m.Keys);
      var rest := m - {k};
      assert rest.Keys == m.Keys - {k};
      EntriesSpec(rest);
    }
  }

  /** `$"{kvp.Key}[{kvp.Value}]"`. */
  function Token(e: (int, int)): string {
    IntToString(e.0) + "[" + IntToString(e.1) + "]"
  }

  function Tokens(es: seq<(int, int)>): (ts: seq<string>)
    ensures |ts| == |es| && forall i :: 0 <= i < |es| ==> ts[i] == Token(es[i])
  {
    seq(|es|, i requires 0 <= i < |es| => Token(es[i]))
  }

  /** `string.Join(",", dict.Select(kvp => $"{kvp.Key}[{kvp.Value}]"))`. */
  function Encode(m: Claims): string {
    Join(Tokens(Entries(m)), ",")
  }

  predicate InInt32Range(m: Claims) {
    forall k :: k in m ==> IsInt32(k) && IsInt32(m[k])
  }

  /** The empty dictionary is written as "". */
  lemma EncodeEmpty()
    ensures Encode(map[]) == ""
  {
    assert Entries(map[]) == [];
  }

  /** Each written entry is `id[count]`: no white space at its ends and no ','. */
  lemma TokenShape(e: (int, int))
    ensures var t := Token(e); |t| > 0 && !IsWhite(t[0]) && t[|t| - 1] == ']' && Free(t, ",")
  {
    var a, b := IntToString(e.0), IntToString(e.1);
    var t := Token(e);
    assert t == a + "[" + b + "]";
    assert t[0] == a[0];
    forall i | 0 <= i < |t| ensures t[i] != ',' {
      if i < |a| {
        assert t[i] == a[i];
      } else if |a| < i < |a| + 1 + |b| {
        assert t[i] == b[i - |a| - 1];
      }
    }
  }

  /** A written entry reads back as the pair it was written from. */
  lemma ParseToken(e: (int, int))
    requires IsInt32(e.0) && IsInt32(e.1)
    ensures ParseEntry(Token(e)) == Some(e)
  {
    var b := IntToString(e.1);
    TokenShape(e);
    TrimUnchanged(Token(e));
    TokenHalves(e);
    assert (b + "]")[..|b|] == b;
    assert TrimEndChar(b + "]", ']') == b;
    ParseIntToString(e.0);
    ParseIntToString(e.1);
  }

  /** A written entry splits at its '[' into the id and the count with its ']'. */
  lemma TokenHalves(e: (int, int))
    ensures SplitOn(Token(e), "[") == [IntToString(e.0), IntToString(e.1) + "]"]
  {
    var a, b := IntToString(e.0), IntToString(e.1);
    var b1 := b + "]";
    forall k | 0 <= k < 2 ensures Free([a, b1][k], "[") {
      if k == 1 {
        forall i | 0 <= i < |b1| ensures b1[i] != '[' {
          if i < |b| {
            assert b1[i] == b[i];
          }
        }
      }
    }
    assert Join([a, b1], "[") == Token(e);
    SplitOnJoin([a, b1], "[");
  }

  function Present(es: seq<(int, int)>): (ps: seq<Option<(int, int)>>)
    ensures |ps| == |es| && forall i :: 0 <= i < |es| ==> ps[i] == Some(es[i])
  {
    seq(|es|, i requires 0 <= i < |es| => Some(es[i]))
  }

  /** Folding the ascending pairs of a dictionary rebuilds it. */
  lemma {:induction false} DecodePresent(m: Claims)
    ensures DecodePairs(Present(Entries(m))) == m
    decreases |m|
  {
    if |m| > 0 {
      var k := MaxKey(m.Keys);
      var rest := m - {k};
      assert rest.Keys == m.Keys - {k};
      DecodePresent(rest);
      assert rest[k := m[k]] == m;
      DecodeLastPair(Entries(rest), (k, m[k]), rest, m);
      assert Entries(m) == Entries(rest) + [(k, m[k])];
    } else {
      assert m == map[];
    }
  }

  /** Folding one more pair onto a fold that gave `rest` gives `rest` with that pair set. */
  lemma DecodeLastPair(es: seq<(int, int)>, e: (int, int), rest: Claims, m: Claims)
    requires DecodePairs(Present(es)) == rest && m == rest[e.0 := e.1]
    ensures DecodePairs(Present(es + [e])) == m
  {
    assert Present(es + [e]) == Present(es) + [Some(e)];
    DecodeSnoc(Present(es), e);
  }

  /** A good entry at the end overwrites its id's count. */
  lemma DecodeSnoc(ps: seq<Option<(int, int)>>, e: (int, int))
    ensures DecodePairs(ps + [Some(e)]) == DecodePairs(ps)[e.0 := e.1]
  {
    assert (ps + [Some(e)])[..|ps|] == ps;
  }

  /** Every written entry reads back as its pair. */
  lemma ParsedTokens(m: Claims)
    requires InInt32Range(m)
    ensures ParsedEntries(Tokens(Entries(m))) == Present(Entries(m))
  {
    var es := Entries(m);
    EntriesSpec(m);
    var ts := Tokens(es);
    forall i | 0 <= i < |es| ensures ParseEntry(ts[i]) == Some(es[i]) {
      ParseToken(es[i]);
    }
    ParsedAll(ts, es);
  }

  lemma ParsedAll(ts: seq<string>, es: seq<(int, int)>)
    requires |ts| == |es| && forall i :: 0 <= i < |ts| ==> ParseEntry(ts[i]) == Some(es[i])
    ensures ParsedEntries(ts) == Present(es)
  {
  }

  /** Writing the dictionary and decoding the text gives back the same dictionary. */
  lemma DecodeEncode(m: Claims)
    requires InInt32Range(m)
    ensures Decode(Encode(m)) == m
  {
    var ts := Tokens(Entries(m));
    if |m| == 0 {
      assert m == map[];
      EncodeEmpty();
    } else {
      forall i | 0 <= i < |ts| ensures Free(ts[i], ",") {
        TokenShape(Entries(m)[i]);
      }
      SplitOnJoin(ts, ",");
      JoinStartsWithFirst(ts, ",");
      TokenShape(Entries(m)[0]);
      assert Encode(m)[0] == ts[0][0];
      assert !IsBlank(Encode(m));
      ParsedTokens(m);
      DecodePresent(m);
    }
  }

  // ------------------------------------------------------------------ slot counts

  /** The slots held for `id`, zero when the id is absent. */
  function Count(m: Claims, id: int): int {
    if id in m then m[id] else 0
  }

  /** Every stored count is at least 1. */
  predicate Positive(m: Claims) {
    forall k :: k in m ==> m[k] >= 1
  }

  /** `dict[id] = dict.ContainsKey(id) ? dict[id] + 1 : 1`. */
  function Inc(m: Claims, id: int): (r: Claims)
    ensures r.Keys == m.Keys + {id}
    ensures Count(r, id) == Count(m, id) + 1
    ensures forall k :: k != id ==> Count(r, k) == Count(m, k)
  {
    m[id := if id in m then m[id] + 1 else 1]
  }

  /** A count above 1 goes down by one, a count of 1 or less removes the id, an absent id stays absent. */
  function Dec(m: Claims, id: int): (r: Claims)
    ensures id in m && m[id] > 1 ==> r.Keys == m.Keys && r[id] == m[id] - 1
    ensures !(id in m && m[id] > 1) ==> r.Keys == m.Keys - {id}
    ensures forall k :: k != id ==> Count(r, k) == Count(m, k)
  {
    if id in m && m[id] > 1 then m[id := m[id] - 1] else m - {id}
  }

  /** Decrementing never leaves a count of 0 or below behind for that id. */
  lemma DecNeverZero(m: Claims, id: int)
    ensures id in Dec(m, id) ==> Dec(m, id)[id] >= 1
    ensures Positive(m) ==> Positive(Dec(m, id))
  {
  }

  lemma IncKeepsPositive(m: Claims, id: int)
    requires Positive(m)
    ensures Positive(Inc(m, id))
  {
  }

  /** On a stock with positive counts, a decrement undoes an increment. */
  lemma DecUndoesInc(m: Claims, id: int)
    requires Positive(m)
    ensures Dec(Inc(m, id), id) == m
  {
    var r := Dec(Inc(m, id), id);
    assert r.Keys == m.Keys;
  }

  /** On a stock with positive counts, a decrement takes one slot, down to none. */
  lemma DecCount(m: Claims, id: int)
    requires Positive(m)
    ensures Count(Dec(m, id), id) == if Count(m, id) > 0 then Count(m, id) - 1 else 0
  {
  }

  /** One increment per occurrence of each id, in order. */
  function IncAll(m: Claims, ids: seq<int>): Claims {
    if |ids| == 0 then m else Inc(IncAll(m, ids[..|ids| - 1]), ids[|ids| - 1])
  }

  /** One more id on the list is one more `Inc` at the end. */
  lemma IncAllSnoc(m: Claims, ids: seq<int>, id: int)
    ensures IncAll(m, ids + [id]) == Inc(IncAll(m, ids), id)
  {
    assert (ids + [id])[..|ids|] == ids;
  }

  /** Each id gains as many slots as it occurs in `ids`; other ids keep theirs. */
  lemma {:induction false} IncAllCount(m: Claims, ids: seq<int>, k: int)
    ensures Count(IncAll(m, ids), k) == Count(m, k) + multiset(ids)[k]
  {
    if |ids| > 0 {
      var init := ids[..|ids| - 1];
      IncAllCount(m, init, k);
      assert ids == init + [ids[|ids| - 1]];
    }
  }

  lemma {:induction false} IncAllKeepsPositive(m: Claims, ids: seq<int>)
    requires Positive(m)
    ensures Positive(IncAll(m, ids))
  {
    if |ids| > 0 {
      IncAllKeepsPositive(m, ids[..|ids| - 1]);
      IncKeepsPositive(IncAll(m, ids[..|ids| - 1]), ids[|ids| - 1]);
    }
  }

  /** One decrement per occurrence of each id, in order. */
  function DecAll(m: Claims, ids: seq<int>): Claims {
    if |ids| == 0 then m else Dec(DecAll(m, ids[..|ids| - 1]), ids[|ids| - 1])
  }

  /** One more id on the list is one more `Dec` at the end. */
  lemma DecAllSnoc(m: Claims, ids: seq<int>, id: int)
    ensures DecAll(m, ids + [id]) == Dec(DecAll(m, ids), id)
  {
    assert (ids + [id])[..|ids|] == ids;
  }

  /** Decrements never add an id. */
  lemma {:induction false} DecAllKeys(m: Claims, ids: seq<int>)
    ensures DecAll(m, ids).Keys <= m.Keys
  {
    if |ids| > 0 {
      DecAllKeys(m, ids[..|ids| - 1]);
    }
  }

  lemma {:induction false} DecAllKeepsPositive(m: Claims, ids: seq<int>)
    requires Positive(m)
    ensures Positive(DecAll(m, ids))
  {
    if |ids| > 0 {
      DecAllKeepsPositive(m, ids[..|ids| - 1]);
      DecNeverZero(DecAll(m, ids[..|ids| - 1]), ids[|ids| - 1]);
    }
  }

  /** On a stock with positive counts, each id loses one slot per occurrence, down to none. */
  lemma {:induction false} DecAllCount(m: Claims, ids: seq<int>, k: int)
    requires Positive(m)
    ensures Count(DecAll(m, ids), k) == if Count(m, k) > multiset(ids)[k] then Count(m, k) - multiset(ids)[k] else 0
  {
    if |ids| > 0 {
      var init := ids[..|ids| - 1];
      DecAllCount(m, init, k);
      DecAllKeepsPositive(m, init);
      DecCount(DecAll(m, init), ids[|ids| - 1]);
      assert ids == init + [ids[|ids| - 1]];
    }
  }
}
