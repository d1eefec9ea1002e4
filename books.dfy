/** Item records returned by the ownership endpoint, their identity key, and
    `uniq`, the stable deduplicator of amazon.js. */
module Books {

  /** One owned e-book, as the endpoint returns it (only the fields the
      program reads). */
  datatype Book = Book(
    authors: string,
    title: string,
    asin: string,
    orderDetailURL: string,
    productImage: string,
    acquiredDate: string)

  /** The identity key: the plain concatenation `orderDetailURL + asin`,
      with no separator. */
  function KeyOf(b: Book): string
  {
    b.orderDetailURL + b.asin
  }

  /** The set of identity keys occurring in `s`. */
  function Keys(s: seq<Book>): set<string>
  {
    set b | b in s :: KeyOf(b)
  }

  /** No two items of `s` share an identity key. */
  predicate NoDupKeys(s: seq<Book>)
  {
    forall i, j :: 0 <= i < j < |s| ==> KeyOf(s[i]) != KeyOf(s[j])
  }

  /** Position `i` holds the first occurrence of its key in `s`. */
  predicate IsFirst(s: seq<Book>, i: nat)
    requires i < |s|
  {
    forall k :: 0 <= k < i ==> KeyOf(s[k]) != KeyOf(s[i])
  }

  /** The specification of `uniq`: scanning left to right, an item survives
      exactly when no earlier item has its key. Defined on the last element,
      the way the scan extends a prefix. */
  function Dedup(s: seq<Book>): (r: seq<Book>)
    ensures |r| <= |s|
  {
    if s == [] then []
    else
      var init, last := s[..|s| - 1], s[|s| - 1];
      if KeyOf(last) in Keys(init) then Dedup(init) else Dedup(init) + [last]
  }

  /** The positions of `s` that `Dedup` keeps, in increasing order. */
  ghost function Survivors(s: seq<Book>): seq<nat>
  {
    if s == [] then []
    else
      var init := s[..|s| - 1];
      Survivors(init) + (if KeyOf(s[|s| - 1]) in Keys(init) then [] else [|s| - 1])
  }

  /** The `filter` of amazon.js with its `seen` dictionary, modelled as a
      plain map from string to boolean: the keys of `seen` are the identity
      keys met so far. */
  method Uniq(a: seq<Book>) returns (r: seq<Book>)
    ensures r == Dedup(a)
  {
    var seen: map<string, bool> := map[];
    r := [];
    var i := 0;
    while i < |a|
      invariant 0 <= i <= |a|
      invariant seen.Keys == Keys(a[..i])
      invariant r == Dedup(a[..i])
    {
      var key := a[i].orderDetailURL + a[i].asin;
      UniqStep(a[..i], a[i], seen, r);
      if key !in seen {
        seen := seen[key := true];
        r := r + [a[i]];
      }
      assert a[..i + 1] == a[..i] + [a[i]];
      i := i + 1;
    }
    assert a[..|a|] == a;
  }

  /** One step of the filter keeps the loop's invariant. */
  lemma UniqStep(prefix: seq<Book>, x: Book, seen: map<string, bool>, r: seq<Book>)
    requires seen.Keys == Keys(prefix) && r == Dedup(prefix)
    ensures KeyOf(x) in seen ==> Keys(prefix + [x]) == seen.Keys && Dedup(prefix + [x]) == r
    ensures KeyOf(x) !in seen ==>
              Keys(prefix + [x]) == seen[KeyOf(x) := true].Keys && Dedup(prefix + [x]) == r + [x]
  {
    DedupSnoc(prefix, x);
    KeysSnoc(prefix, x);
  }

  lemma KeysSnoc(s: seq<Book>, x: Book)
    ensures Keys(s + [x]) == Keys(s) + {KeyOf(x)}
  {
    forall k | k in Keys(s + [x]) ensures k in Keys(s) + {KeyOf(x)} {
      var b :| b in s + [x] && KeyOf(b) == k;
    }
    forall k | k in Keys(s) + {KeyOf(x)} ensures k in Keys(s + [x]) {
      if k == KeyOf(x) {
        assert x in s + [x];
      } else {
        var b :| b in s && KeyOf(b) == k;
        assert b in s + [x];
      }
    }
  }

  lemma KeysAppend(a: seq<Book>, b: seq<Book>)
    ensures Keys(a + b) == Keys(a) + Keys(b)
  {
    forall k | k in Keys(a + b) ensures k in Keys(a) + Keys(b) {
      var x :| x in a + b && KeyOf(x) == k;
    }
    forall k | k in Keys(a) + Keys(b) ensures k in Keys(a + b) {
      if k in Keys(a) {
        var x :| x in a && KeyOf(x) == k;
        assert x in a + b;
      } else {
        var x :| x in b && KeyOf(x) == k;
        assert x in a + b;
      }
    }
  }

  /** Every key of the input is still present, and no other key appears. */
  lemma {:induction false} DedupKeys(s: seq<Book>)
    ensures Keys(Dedup(s)) == Keys(s)
  {
    if s != [] {
      var init, last := s[..|s| - 1], s[|s| - 1];
      assert s == init + [last];
      DedupKeys(init);
      KeysSnoc(init, last);
      if KeyOf(last) !in Keys(init) {
        KeysSnoc(Dedup(init), last);
      }
    }
  }

  /** The result has no two items with the same key. */
  lemma {:induction false} DedupDistinct(s: seq<Book>)
    ensures NoDupKeys(Dedup(s))
  {
    if s != [] {
      var init, last := s[..|s| - 1], s[|s| - 1];
      DedupDistinct(init);
      if KeyOf(last) !in Keys(init) {
        DedupKeys(init);
        var r := Dedup(init) + [last];
        forall i, j | 0 <= i < j < |r| ensures KeyOf(r[i]) != KeyOf(r[j]) {
          if j == |r| - 1 {
            assert r[i] in Dedup(init);
          }
        }
      }
    }
  }

  /** `Dedup` keeps exactly the first occurrence of every key and nothing
      else, in the order of the input: it is the subsequence of `s` at the
      strictly increasing positions `Survivors(s)`, and those are exactly the
      positions that are first occurrences. */
  lemma {:induction false} DedupKeepsFirstOccurrences(s: seq<Book>)
    ensures |Survivors(s)| == |Dedup(s)|
    ensures forall j :: 0 <= j < |Dedup(s)| ==> Survivors(s)[j] < |s| && Dedup(s)[j] == s[Survivors(s)[j]]
    ensures forall j, k :: 0 <= j < k < |Survivors(s)| ==> Survivors(s)[j] < Survivors(s)[k]
    ensures forall i :: 0 <= i < |s| ==> (IsFirst(s, i) <==> i in Survivors(s))
  {
    if s != [] {
      var init, last := s[..|s| - 1], s[|s| - 1];
      DedupKeepsFirstOccurrences(init);
      IsFirstOfInit(s);
      IsFirstOfLast(s);
    }
  }

  /** Whether a position of `s` other than the last holds a first occurrence
      does not depend on the last item. */
  lemma IsFirstOfInit(s: seq<Book>)
    requires s != []
    ensures forall i :: 0 <= i < |s| - 1 ==> (IsFirst(s, i) <==> IsFirst(s[..|s| - 1], i))
  {
  }

  /** The last item of `s` is a first occurrence exactly when its key is new. */
  lemma IsFirstOfLast(s: seq<Book>)
    requires s != []
    ensures IsFirst(s, |s| - 1) <==> KeyOf(s[|s| - 1]) !in Keys(s[..|s| - 1])
  {
    var init, last := s[..|s| - 1], s[|s| - 1];
    if KeyOf(last) in Keys(init) {
      var b :| b in init && KeyOf(b) == KeyOf(last);
      var k :| 0 <= k < |init| && init[k] == b;
      assert KeyOf(s[k]) == KeyOf(s[|s| - 1]);
    } else {
      forall k | 0 <= k < |s| - 1 ensures KeyOf(s[k]) != KeyOf(s[|s| - 1]) {
        assert s[k] in init;
      }
    }
  }

  /** Every survivor is the first item of the input with its key. */
  lemma FirstOccurrenceWins(s: seq<Book>, j: nat)
    requires j < |Dedup(s)|
    ensures exists i :: 0 <= i < |s| && Dedup(s)[j] == s[i] && IsFirst(s, i)
  {
    DedupKeepsFirstOccurrences(s);
    var i := Survivors(s)[j];
    assert Dedup(s)[j] == s[i] && IsFirst(s, i);
  }

  /** An input with no duplicate keys is left as it is. */
  lemma {:induction false} DedupOfDistinct(s: seq<Book>)
    requires NoDupKeys(s)
    ensures Dedup(s) == s
  {
    if s != [] {
      var init, last := s[..|s| - 1], s[|s| - 1];
      assert NoDupKeys(init) by {
        forall i, j | 0 <= i < j < |init| ensures KeyOf(init[i]) != KeyOf(init[j]) {
          assert init[i] == s[i] && init[j] == s[j];
        }
      }
      DedupOfDistinct(init);
      assert KeyOf(last) !in Keys(init) by {
        forall b | b in init ensures KeyOf(b) != KeyOf(last) {
          var k :| 0 <= k < |init| && init[k] == b;
          assert s[k] == b;
        }
      }
      assert s == init + [last];
    }
  }

  /** Deduplicating twice is the same as deduplicating once. */
  lemma DedupIdempotent(s: seq<Book>)
    ensures Dedup(Dedup(s)) == Dedup(s)
  {
    DedupDistinct(s);
    DedupOfDistinct(Dedup(s));
  }

  /** Appending items whose keys are already present changes nothing. */
  lemma {:induction false} DedupAppendSeen(a: seq<Book>, b: seq<Book>)
    requires Keys(b) <= Keys(a)
    ensures Dedup(a + b) == Dedup(a)
  {
    if b == [] {
      assert a + b == a;
    } else {
      var binit, blast := b[..|b| - 1], b[|b| - 1];
      assert b == binit + [blast];
      KeysSnoc(binit, blast);
      DedupAppendSeen(a, binit);
      assert (a + b)[..|a + b| - 1] == a + binit;
      KeysAppend(a, binit);
    }
  }

  /** `Dedup` of a list extended by one item. */
  lemma DedupSnoc(s: seq<Book>, x: Book)
    ensures Dedup(s + [x]) == if KeyOf(x) in Keys(s) then Dedup(s) else Dedup(s) + [x]
  {
    var t := s + [x];
    assert t[..|t| - 1] == s && t[|t| - 1] == x;
  }

  /** Deduplicating before appending more items does not change the final
      result: the merge may dedupe after every sort order or only at the end. */
  lemma {:induction false} DedupAbsorb(a: seq<Book>, b: seq<Book>)
    ensures Dedup(Dedup(a) + b) == Dedup(a + b)
  {
    if b == [] {
      assert a + b == a;
      assert Dedup(a) + b == Dedup(a);
      DedupIdempotent(a);
    } else {
      var binit, blast := b[..|b| - 1], b[|b| - 1];
      assert b == binit + [blast];
      assert Dedup(a) + b == (Dedup(a) + binit) + [blast];
      assert a + b == (a + binit) + [blast];
      DedupSnoc(Dedup(a) + binit, blast);
      DedupSnoc(a + binit, blast);
      DedupAbsorb(a, binit);
      assert Keys(Dedup(a) + binit) == Keys(a + binit) by {
        KeysAppend(Dedup(a), binit);
        KeysAppend(a, binit);
        DedupKeys(a);
      }
    }
  }

  /** With no key shared between the two parts, the parts are deduplicated
      independently; in particular two duplicate-free lists with disjoint keys
      keep all `|a| + |b|` items. */
  lemma {:induction false} DedupAppendDisjoint(a: seq<Book>, b: seq<Book>)
    requires Keys(a) !! Keys(b)
    ensures Dedup(a + b) == Dedup(a) + Dedup(b)
    ensures NoDupKeys(a) && NoDupKeys(b) ==> |Dedup(a + b)| == |a| + |b|
  {
    if b == [] {
      assert a + b == a;
    } else {
      var binit, blast := b[..|b| - 1], b[|b| - 1];
      assert b == binit + [blast];
      KeysSnoc(binit, blast);
      DedupAppendDisjoint(a, binit);
      assert (a + b)[..|a + b| - 1] == a + binit;
      KeysAppend(a, binit);
    }
    if NoDupKeys(a) && NoDupKeys(b) {
      DedupOfDistinct(a);
      DedupOfDistinct(b);
    }
  }

  /** With the plain concatenation as key, two different (order URL, ASIN)
      pairs can share a key, and `Dedup` then drops the second item. */
  lemma KeyCollision()
    ensures var b1 := Book("", "", "23", "u1", "", "");
            var b2 := Book("", "", "3", "u12", "", "");
            (b1.orderDetailURL, b1.asin) != (b2.orderDetailURL, b2.asin) && Dedup([b1, b2]) == [b1]
  {
    var b1 := Book("", "", "23", "u1", "", "");
    var b2 := Book("", "", "3", "u12", "", "");
    assert KeyOf(b1) == KeyOf(b2);
    assert [b1, b2][..1] == [b1];
    assert [b1][..0] == [];
    assert b1 in [b1];
  }

  /** When both ASINs have the same length (real ASINs are ten characters),
      equal keys mean equal order URL and equal ASIN. */
  lemma KeyInjectiveOnFixedLengthAsin(b1: Book, b2: Book)
    requires |b1.asin| == |b2.asin|
    ensures KeyOf(b1) == KeyOf(b2) <==> b1.orderDetailURL == b2.orderDetailURL && b1.asin == b2.asin
  {
    if KeyOf(b1) == KeyOf(b2) {
      var k1, k2 := KeyOf(b1), KeyOf(b2);
      var n := |b1.orderDetailURL|;
      assert k1[..n] == b1.orderDetailURL && k2[..n] == b2.orderDetailURL;
      assert k1[n..] == b1.asin && k2[n..] == b2.asin;
    }
  }
}
