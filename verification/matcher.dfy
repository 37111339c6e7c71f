/**
 The pattern matcher and the local search executor: a query pattern is a
 literal string (exact match) or a regular expression, kept here as the
 opaque test it performs; `search` keeps, in store order, the records whose
 stringified field the pattern accepts.
 */
module Matcher {
  import opened Records

  /** A `string | RegExp` search pattern; `test` stands for `RegExp.prototype.test`. */
  datatype Pattern = Literal(text: string) | Regex(test: string -> bool)

  /** `isTargetValue`: a regular expression decides by its test, a literal by exact equality. */
  function IsTargetValue(value: string, pattern: Pattern): (ok: bool)
    ensures pattern.Regex? ==> (ok <==> pattern.test(value))
    ensures pattern.Literal? ==> (ok <==> value == pattern.text)
  {
    match pattern
    case Regex(test) => test(value)
    case Literal(text) => value == text
  }

  /** Whether the search for `pattern` on `field` keeps `rec`. */
  predicate Keeps(rec: Record, field: string, pattern: Pattern) {
    IsTargetValue(FieldText(rec, field), pattern)
  }

  /** `search`: `Array.prototype.filter` over the store, front to back. */
  function Search(store: seq<Record>, field: string, pattern: Pattern): (r: seq<Record>)
    ensures |r| <= |store|
    ensures forall k :: 0 <= k < |r| ==> r[k] in store && Keeps(r[k], field, pattern)
    ensures forall k :: 0 <= k < |store| && Keeps(store[k], field, pattern) ==> store[k] in r
    decreases |store|
  {
    if |store| == 0 then []
    else
      var rest := Search(store[1..], field, pattern);
      assert forall k :: 0 < k < |store| ==> store[k] == store[1..][k - 1];
      if Keeps(store[0], field, pattern) then [store[0]] + rest else rest
  }

  /** `idx` is strictly increasing and lists positions of `store`. */
  ghost predicate IndexChain(idx: seq<int>, n: int) {
    && (forall k :: 0 <= k < |idx| ==> 0 <= idx[k] < n)
    && (forall k, l :: 0 <= k < l < |idx| ==> idx[k] < idx[l])
  }

  /**
   `r` is the order-preserving selection of `store` at positions `idx`, and
   `idx` holds exactly the positions whose record the pattern accepts.
   */
  ghost predicate SelectsMatches(r: seq<Record>, store: seq<Record>, idx: seq<int>, field: string, pattern: Pattern) {
    && IndexChain(idx, |store|)
    && |r| == |idx|
    && (forall k :: 0 <= k < |idx| ==> r[k] == store[idx[k]])
    && (forall i :: 0 <= i < |store| ==> (Keeps(store[i], field, pattern) <==> i in idx))
  }

  /** Every position of `idx`, one further on. */
  function Shift(idx: seq<int>): (s: seq<int>)
    ensures |s| == |idx|
    ensures forall k :: 0 <= k < |idx| ==> s[k] == idx[k] + 1
  {
    seq(|idx|, k requires 0 <= k < |idx| => idx[k] + 1)
  }

  /** Shifting a chain of positions moves membership one place on. */
  lemma ShiftMembers(idx: seq<int>, n: int)
    requires IndexChain(idx, n)
    ensures IndexChain(Shift(idx), n + 1)
    ensures 0 !in Shift(idx)
    ensures forall i :: i - 1 in idx <==> i in Shift(idx)
  {
    var s := Shift(idx);
    forall i ensures i - 1 in idx <==> i in s {
      if i - 1 in idx {
        var k :| 0 <= k < |idx| && idx[k] == i - 1;
        assert s[k] == i;
      }
      if i in s {
        var k :| 0 <= k < |s| && s[k] == i;
        assert idx[k] == i - 1;
      }
    }
  }

  /** A selection from the tail of a store, read against the whole store. */
  lemma SelectsFromTail(rest: seq<Record>, store: seq<Record>, sub: seq<int>, field: string, pattern: Pattern)
    requires 0 < |store|
    requires SelectsMatches(rest, store[1..], sub, field, pattern)
    ensures IndexChain(Shift(sub), |store|)
    ensures forall k :: 0 <= k < |sub| ==> rest[k] == store[Shift(sub)[k]] && Shift(sub)[k] > 0
    ensures forall i :: 0 < i < |store| ==> (Keeps(store[i], field, pattern) <==> i in Shift(sub))
    ensures 0 !in Shift(sub)
  {
    var tail := store[1..];
    ShiftMembers(sub, |tail|);
    var shifted := Shift(sub);
    forall k | 0 <= k < |shifted| ensures rest[k] == store[shifted[k]] {
      assert store[shifted[k]] == tail[sub[k]];
    }
    forall i | 0 < i < |store| ensures Keeps(store[i], field, pattern) <==> i in shifted {
      assert store[i] == tail[i - 1];
      assert i - 1 in sub <==> i in shifted;
    }
  }

  /** Prepending the kept head record to a selection from the tail. */
  lemma SelectsWithHead(rest: seq<Record>, store: seq<Record>, shifted: seq<int>, field: string, pattern: Pattern)
    requires 0 < |store| && Keeps(store[0], field, pattern)
    requires IndexChain(shifted, |store|) && |rest| == |shifted|
    requires forall k :: 0 <= k < |shifted| ==> rest[k] == store[shifted[k]] && shifted[k] > 0
    requires forall i :: 0 < i < |store| ==> (Keeps(store[i], field, pattern) <==> i in shifted)
    ensures SelectsMatches([store[0]] + rest, store, [0] + shifted, field, pattern)
  {
    var idx := [0] + shifted;
    var r := [store[0]] + rest;
    forall k | 0 < k < |idx| ensures r[k] == store[idx[k]] {
      assert r[k] == rest[k - 1] && idx[k] == shifted[k - 1];
    }
    forall i | 0 < i < |store| ensures i in idx <==> i in shifted {
    }
  }

  /**
   The search result is exactly the matching records of the store, in store
   order: it is the store read at the strictly increasing positions of the
   matching records and nowhere else.
   */
  lemma {:induction false} SearchIsOrderedFilter(store: seq<Record>, field: string, pattern: Pattern)
    returns (idx: seq<int>)
    ensures SelectsMatches(Search(store, field, pattern), store, idx, field, pattern)
    decreases |store|
  {
    if |store| == 0 {
      idx := [];
    } else {
      var sub := SearchIsOrderedFilter(store[1..], field, pattern);
      var rest := Search(store[1..], field, pattern);
      SelectsFromTail(rest, store, sub, field, pattern);
      if Keeps(store[0], field, pattern) {
        SelectsWithHead(rest, store, Shift(sub), field, pattern);
        idx := [0] + Shift(sub);
      } else {
        idx := Shift(sub);
      }
    }
  }

  /** Searching the concatenation of two stores searches each in turn. */
  lemma {:induction false} SearchAppend(a: seq<Record>, b: seq<Record>, field: string, pattern: Pattern)
    ensures Search(a + b, field, pattern) == Search(a, field, pattern) + Search(b, field, pattern)
    decreases |a|
  {
    if |a| == 0 {
      assert a + b == b;
    } else {
      assert (a + b)[1..] == a[1..] + b;
      SearchAppend(a[1..], b, field, pattern);
    }
  }

  /** Searching a search result with the same query changes nothing. */
  lemma {:induction false} SearchIdempotent(store: seq<Record>, field: string, pattern: Pattern)
    ensures Search(Search(store, field, pattern), field, pattern) == Search(store, field, pattern)
    decreases |store|
  {
    if |store| > 0 {
      SearchIdempotent(store[1..], field, pattern);
      var rest := Search(store[1..], field, pattern);
      if Keeps(store[0], field, pattern) {
        assert ([store[0]] + rest)[1..] == rest;
      }
    }
  }

  /**
   A literal query keeps exactly the records whose stringified field is that
   literal: nothing else is returned and no such record is missed.
   */
  lemma LiteralSearchIsExactMatch(store: seq<Record>, field: string, text: string)
    ensures forall k :: 0 <= k < |Search(store, field, Literal(text))| ==>
      FieldText(Search(store, field, Literal(text))[k], field) == text
    ensures forall k :: 0 <= k < |store| && FieldText(store[k], field) == text ==>
      store[k] in Search(store, field, Literal(text))
  {
  }
}
