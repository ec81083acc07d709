/** The key-ordering step of `format_json_with_comments`: some well-known
    keys are moved to the front of a JSON object, in a fixed order, and the
    remaining keys keep their original order. */
module KeyOrder {

  predicate Distinct(xs: seq<string>) {
    forall i, j :: 0 <= i < j < |xs| ==> xs[i] != xs[j]
  }

  /** The elements of `xs` that occur in `ys`, in `xs` order. */
  function KeepIn(xs: seq<string>, ys: seq<string>): seq<string> {
    if |xs| == 0 then [] else (if xs[0] in ys then [xs[0]] else []) + KeepIn(xs[1..], ys)
  }

  /** The elements of `xs` that do not occur in `ys`, in `xs` order. */
  function KeepOut(xs: seq<string>, ys: seq<string>): seq<string> {
    if |xs| == 0 then [] else (if xs[0] in ys then [] else [xs[0]]) + KeepOut(xs[1..], ys)
  }

  /** `list.remove(x)`: drop the first occurrence of `x`. */
  function Remove(xs: seq<string>, x: string): (r: seq<string>)
    requires x in xs
    ensures |r| == |xs| - 1
    ensures multiset(r) == multiset(xs) - multiset{x}
  {
    assert xs == [xs[0]] + xs[1..];
    if xs[0] == x then xs[1..] else [xs[0]] + Remove(xs[1..], x)
  }

  /** One `for field in fields: if field in keys: priority.append(field);
      keys.remove(field)` loop: the pulled fields and the keys left over,
      which between them hold exactly the keys; only listed fields are
      pulled. */
  function Pull(fields: seq<string>, keys: seq<string>): (r: (seq<string>, seq<string>))
    ensures multiset(r.0) + multiset(r.1) == multiset(keys)
    ensures forall i :: 0 <= i < |r.0| ==> r.0[i] in fields
  {
    if |fields| == 0 then ([], keys)
    else if fields[0] in keys then
      var f := fields[0];
      var (p, rest) := Pull(fields[1..], Remove(keys, f));
      assert multiset(keys) == multiset{f} + (multiset(keys) - multiset{f});
      assert multiset([f] + p) == multiset{f} + multiset(p);
      ([f] + p, rest)
    else Pull(fields[1..], keys)
  }

  const AttentionFields: seq<string> := ["_query_info", "_note", "api_response"]
  const AttentionStandardFields: seq<string> := ["id", "create_time", "user_id"]
  const PostFields: seq<string> := ["id", "create_time", "user_id", "title", "content"]

  /** Follow-list data is recognised by any of its three special keys. */
  predicate IsAttentionData(keys: seq<string>) {
    exists i :: 0 <= i < |AttentionFields| && AttentionFields[i] in keys
  }

  /** The priority list that applies to `keys`. */
  function Priority(keys: seq<string>): seq<string> {
    if IsAttentionData(keys) then AttentionFields + AttentionStandardFields else PostFields
  }

  /** The key order `format_json_with_comments` writes `data` in. The keys
      of a JSON object are distinct. The result is the present priority
      fields in priority order, then every other key in its original order,
      and it is a permutation of the keys. */
  function OrderKeys(keys: seq<string>): (r: seq<string>)
    requires Distinct(keys)
    ensures r == KeepIn(Priority(keys), keys) + KeepOut(keys, Priority(keys))
    ensures multiset(r) == multiset(keys)
  {
    FieldListsDistinct();
    PriorityPermutes(keys, Priority(keys));
    if IsAttentionData(keys) then
      AttentionOrder(keys);
      var (p1, k1) := Pull(AttentionFields, keys);
      var (p2, k2) := Pull(AttentionStandardFields, k1);
      p1 + p2 + k2
    else
      PullSpec(PostFields, keys);
      var (p, k) := Pull(PostFields, keys);
      p + k
  }

  lemma {:induction false} RemoveIsKeepOut(keys: seq<string>, x: string)
    requires Distinct(keys) && x in keys
    ensures Remove(keys, x) == KeepOut(keys, [x])
    ensures Distinct(Remove(keys, x))
    ensures forall y :: y in Remove(keys, x) <==> y in keys && y != x
  {
    if keys[0] == x {
      KeepOutAbsent(keys[1..], [x]);
    } else {
      RemoveIsKeepOut(keys[1..], x);
      DistinctCons(keys[0], Remove(keys[1..], x));
    }
  }

  lemma DistinctCons(a: string, xs: seq<string>)
    requires Distinct(xs) && a !in xs
    ensures Distinct([a] + xs)
  {
    var r := [a] + xs;
    forall i, j | 0 <= i < j < |r|
      ensures r[i] != r[j]
    {
      assert r[j] == xs[j - 1];
      if i > 0 {
        assert r[i] == xs[i - 1];
      }
    }
  }

  lemma {:induction false} KeepOutAbsent(xs: seq<string>, ys: seq<string>)
    requires forall i :: 0 <= i < |xs| ==> xs[i] !in ys
    ensures KeepOut(xs, ys) == xs
  {
    if |xs| > 0 {
      KeepOutAbsent(xs[1..], ys);
    }
  }

  lemma {:induction false} KeepOutTwice(xs: seq<string>, f: string, rest: seq<string>)
    ensures KeepOut(KeepOut(xs, [f]), rest) == KeepOut(xs, [f] + rest)
  {
    KeepOutConcat(xs, [f], rest);
  }

  lemma {:induction false} KeepInSameMembers(xs: seq<string>, ys: seq<string>, zs: seq<string>)
    requires forall i :: 0 <= i < |xs| ==> (xs[i] in ys <==> xs[i] in zs)
    ensures KeepIn(xs, ys) == KeepIn(xs, zs)
  {
    if |xs| > 0 {
      KeepInSameMembers(xs[1..], ys, zs);
    }
  }

  /** The loop pulls the present fields in `fields` order and leaves the
      other keys in their original order. */
  lemma {:induction false} PullSpec(fields: seq<string>, keys: seq<string>)
    requires Distinct(fields) && Distinct(keys)
    ensures Pull(fields, keys) == (KeepIn(fields, keys), KeepOut(keys, fields))
  {
    if |fields| == 0 {
      KeepOutAbsent(keys, fields);
    } else {
      var f := fields[0];
      assert fields == [f] + fields[1..];
      if f in keys {
        var k' := Remove(keys, f);
        RemoveIsKeepOut(keys, f);
        PullSpec(fields[1..], k');
        KeepInSameMembers(fields[1..], k', keys);
        KeepOutTwice(keys, f, fields[1..]);
      } else {
        PullSpec(fields[1..], keys);
        KeepOutSkip(keys, f, fields[1..]);
        assert Pull(fields, keys) == Pull(fields[1..], keys);
        assert KeepIn(fields, keys) == KeepIn(fields[1..], keys);
      }
    }
  }

  lemma {:induction false} KeepOutSkip(xs: seq<string>, f: string, rest: seq<string>)
    requires f !in xs
    ensures KeepOut(xs, rest) == KeepOut(xs, [f] + rest)
  {
    if |xs| > 0 {
      KeepOutSkip(xs[1..], f, rest);
    }
  }

  lemma {:induction false} KeepInAppend(xs: seq<string>, zs: seq<string>, ys: seq<string>)
    ensures KeepIn(xs + zs, ys) == KeepIn(xs, ys) + KeepIn(zs, ys)
  {
    if |xs| > 0 {
      assert (xs + zs)[1..] == xs[1..] + zs;
      KeepInAppend(xs[1..], zs, ys);
    } else {
      assert xs + zs == zs;
    }
  }

  lemma {:induction false} KeepOutMembers(xs: seq<string>, ys: seq<string>)
    ensures forall x :: x in KeepOut(xs, ys) <==> x in xs && x !in ys
  {
    if |xs| > 0 {
      KeepOutMembers(xs[1..], ys);
      assert xs == [xs[0]] + xs[1..];
    }
  }

  lemma FieldListsDistinct()
    ensures Distinct(AttentionFields) && Distinct(AttentionStandardFields) && Distinct(PostFields)
    ensures forall i :: 0 <= i < |AttentionStandardFields| ==> AttentionStandardFields[i] !in AttentionFields
  {
  }

  /** Follow-list data: the two pulls together move the special keys, then
      the standard ones, to the front. */
  lemma {:induction false} AttentionOrder(keys: seq<string>)
    requires Distinct(keys) && IsAttentionData(keys)
    requires Distinct(AttentionFields) && Distinct(AttentionStandardFields)
    requires forall i :: 0 <= i < |AttentionStandardFields| ==> AttentionStandardFields[i] !in AttentionFields
    ensures var k1 := Pull(AttentionFields, keys).1;
            Pull(AttentionFields, keys).0 + Pull(AttentionStandardFields, k1).0 + Pull(AttentionStandardFields, k1).1
            == KeepIn(AttentionFields + AttentionStandardFields, keys) + KeepOut(keys, AttentionFields + AttentionStandardFields)
  {
    var k1 := KeepOut(keys, AttentionFields);
    PullSpec(AttentionFields, keys);
    KeepOutDistinct(keys, AttentionFields);
    PullSpec(AttentionStandardFields, k1);
    assert KeepIn(AttentionStandardFields, k1) == KeepIn(AttentionStandardFields, keys) by {
      KeepOutMembers(keys, AttentionFields);
      KeepInSameMembers(AttentionStandardFields, k1, keys);
    }
    KeepOutConcat(keys, AttentionFields, AttentionStandardFields);
    KeepInAppend(AttentionFields, AttentionStandardFields, keys);
  }

  lemma {:induction false} KeepOutDistinct(xs: seq<string>, ys: seq<string>)
    requires Distinct(xs)
    ensures Distinct(KeepOut(xs, ys))
  {
    if |xs| > 0 {
      KeepOutDistinct(xs[1..], ys);
      KeepOutMembers(xs[1..], ys);
    }
  }

  lemma {:induction false} KeepOutConcat(xs: seq<string>, ys: seq<string>, zs: seq<string>)
    ensures KeepOut(KeepOut(xs, ys), zs) == KeepOut(xs, ys + zs)
  {
    if |xs| > 0 {
      KeepOutConcat(xs[1..], ys, zs);
      var t := KeepOut(xs[1..], ys);
      assert xs[0] in ys + zs <==> xs[0] in ys || xs[0] in zs;
      if xs[0] !in ys {
        assert ([xs[0]] + t)[0] == xs[0] && ([xs[0]] + t)[1..] == t;
        assert KeepOut([xs[0]] + t, zs) == (if xs[0] in zs then [] else [xs[0]]) + KeepOut(t, zs);
      } else {
        assert KeepOut(xs, ys) == t;
        assert KeepOut(xs, ys + zs) == KeepOut(xs[1..], ys + zs);
      }
    }
  }

  /** Moving the keys named in `p` to the front neither drops nor
      duplicates a key. */
  lemma {:induction false} PriorityPermutes(keys: seq<string>, p: seq<string>)
    requires Distinct(keys) && Distinct(p)
    ensures multiset(KeepIn(p, keys) + KeepOut(keys, p)) == multiset(keys)
  {
    KeepSplit(keys, p);
    KeepInDistinct(p, keys);
    KeepInDistinct(keys, p);
    KeepInMembers(p, keys);
    KeepInMembers(keys, p);
    DistinctSameMembers(KeepIn(p, keys), KeepIn(keys, p));
  }

  lemma {:induction false} KeepSplit(xs: seq<string>, ys: seq<string>)
    ensures multiset(KeepIn(xs, ys)) + multiset(KeepOut(xs, ys)) == multiset(xs)
  {
    if |xs| > 0 {
      assert multiset(xs) == multiset{xs[0]} + multiset(xs[1..]) by {
        assert xs == [xs[0]] + xs[1..];
      }
      KeepSplit(xs[1..], ys);
    }
  }

  lemma {:induction false} KeepInMembers(xs: seq<string>, ys: seq<string>)
    ensures forall x :: x in KeepIn(xs, ys) <==> x in xs && x in ys
  {
    if |xs| > 0 {
      KeepInMembers(xs[1..], ys);
      assert xs == [xs[0]] + xs[1..];
    }
  }

  lemma {:induction false} KeepInDistinct(xs: seq<string>, ys: seq<string>)
    requires Distinct(xs)
    ensures Distinct(KeepIn(xs, ys))
  {
    if |xs| > 0 {
      KeepInDistinct(xs[1..], ys);
      KeepInMembers(xs[1..], ys);
    }
  }

  lemma {:induction false} DistinctCount(xs: seq<string>, x: string)
    requires Distinct(xs)
    ensures multiset(xs)[x] == if x in xs then 1 else 0
  {
    if |xs| > 0 {
      DistinctCount(xs[1..], x);
      assert xs == [xs[0]] + xs[1..];
    }
  }

  lemma DistinctSameMembers(xs: seq<string>, ys: seq<string>)
    requires Distinct(xs) && Distinct(ys)
    requires forall x :: x in xs <==> x in ys
    ensures multiset(xs) == multiset(ys)
  {
    forall x
      ensures multiset(xs)[x] == multiset(ys)[x]
    {
      DistinctCount(xs, x);
      DistinctCount(ys, x);
    }
  }

  /** Post data without any priority key keeps its order unchanged. */
  lemma NoPriorityKeysUnchanged(keys: seq<string>)
    requires Distinct(keys)
    requires forall i :: 0 <= i < |keys| ==> keys[i] !in AttentionFields + PostFields
    ensures OrderKeys(keys) == keys
  {
    assert !IsAttentionData(keys);
    KeepOutAbsent(keys, PostFields);
    KeepInNone(PostFields, keys);
  }

  lemma {:induction false} KeepInNone(xs: seq<string>, ys: seq<string>)
    requires forall i :: 0 <= i < |ys| ==> ys[i] !in xs
    ensures KeepIn(xs, ys) == []
  {
    if |xs| > 0 {
      KeepInNone(xs[1..], ys);
    }
  }
}
