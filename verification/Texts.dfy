/** Text conventions of the governance records: blank checks, stripping, hash identifiers, ordering. */
module Texts {
  import opened Prelude

  /** The characters str.strip() removes. */
  predicate IsSpace(c: char) {
    || '\U{9}' <= c <= '\U{d}' || '\U{1c}' <= c <= '\U{20}' || c == '\U{85}' || c == '\U{a0}' || c == '\U{1680}'
    || '\U{2000}' <= c <= '\U{200a}' || c == '\U{2028}' || c == '\U{2029}' || c == '\U{202f}'
    || c == '\U{205f}' || c == '\U{3000}'
  }

  function StripLeft(s: string): string {
    if s != [] && IsSpace(s[0]) then StripLeft(s[1..]) else s
  }

  function StripRight(s: string): string {
    if s != [] && IsSpace(Last(s)) then StripRight(Init(s)) else s
  }

  function Strip(s: string): string {
    StripRight(StripLeft(s))
  }

  predicate NonBlank(s: string) {
    Strip(s) != ""
  }

  predicate OptionalText(s: Option<string>) {
    s.Some? ==> NonBlank(s.value)
  }

  predicate RequiredText(s: Option<string>) {
    s.Some? && NonBlank(s.value)
  }

  /** sha256: followed by 64 lowercase hexadecimal digits. */
  predicate IsHash(s: string) {
    && |s| == 71 && s[..7] == "sha256:"
    && forall i :: 7 <= i < 71 ==> '0' <= s[i] <= '9' || 'a' <= s[i] <= 'f'
  }

  /** An identity tuple: nonblank texts, no repetition. */
  predicate IdentityTuple(ids: seq<string>) {
    (forall i :: 0 <= i < |ids| ==> NonBlank(ids[i])) && Distinct(ids)
  }

  /** A nonempty evidence set: artifact identities aligned with their hashes, and claim identities. */
  predicate EvidenceTuples(artifactIds: seq<string>, hashes: seq<string>, claimIds: seq<string>) {
    && IdentityTuple(artifactIds) && |artifactIds| == |hashes| && IdentityTuple(claimIds)
    && (forall i :: 0 <= i < |hashes| ==> IsHash(hashes[i]))
  }

  // Python orders text by code point, lexicographically.

  predicate Before(a: string, b: string) {
    if b == "" then false
    else if a == "" then true
    else a[0] < b[0] || (a[0] == b[0] && Before(a[1..], b[1..]))
  }

  lemma {:induction false} BeforeIrreflexive(a: string)
    ensures !Before(a, a)
  {
    if a != "" {
      BeforeIrreflexive(a[1..]);
    }
  }

  lemma {:induction false} BeforeTransitive(a: string, b: string, c: string)
    requires Before(a, b) && Before(b, c)
    ensures Before(a, c)
  {
    if a != "" && a[0] == b[0] == c[0] {
      BeforeTransitive(a[1..], b[1..], c[1..]);
    }
  }

  lemma {:induction false} BeforeTotal(a: string, b: string)
    ensures a == b || Before(a, b) || Before(b, a)
  {
    if a != "" && b != "" && a[0] == b[0] {
      BeforeTotal(a[1..], b[1..]);
      if a[1..] == b[1..] {
        assert a == [a[0]] + a[1..] == b;
      }
    }
  }

  /** Strictly ascending keys: distinct and in order. */
  predicate Ascending(keys: seq<string>) {
    forall i, j :: 0 <= i < j < |keys| ==> Before(keys[i], keys[j])
  }
}

/** A stable sort by a text key. */
module Sorting {
  import opened Prelude
  import opened Texts

  function Keys<T>(items: seq<T>, key: T -> string): (keys: seq<string>)
    ensures |keys| == |items|
  {
    seq(|items|, i requires 0 <= i < |items| => key(items[i]))
  }

  /** Insert after every item whose key is not larger. */
  function Insert<T>(items: seq<T>, x: T, key: T -> string): seq<T> {
    if items != [] && Before(key(x), key(Last(items))) then Insert(Init(items), x, key) + [Last(items)]
    else items + [x]
  }

  function Sorted<T>(items: seq<T>, key: T -> string): seq<T> {
    if items == [] then [] else Insert(Sorted(Init(items), key), Last(items), key)
  }

  lemma {:induction false} InsertKeepsItems<T>(items: seq<T>, x: T, key: T -> string)
    ensures multiset(Insert(items, x, key)) == multiset(items) + multiset{x}
  {
    if items != [] && Before(key(x), key(Last(items))) {
      InsertKeepsItems(Init(items), x, key);
      assert items == Init(items) + [Last(items)];
    }
  }

  lemma {:induction false} SortedKeepsItems<T>(items: seq<T>, key: T -> string)
    ensures multiset(Sorted(items, key)) == multiset(items)
  {
    if items != [] {
      SortedKeepsItems(Init(items), key);
      InsertKeepsItems(Sorted(Init(items), key), Last(items), key);
      assert items == Init(items) + [Last(items)];
    }
  }

  /** Inserting a new key into an ascending list keeps it ascending. */
  lemma {:induction false} InsertAscending<T>(items: seq<T>, x: T, key: T -> string)
    requires Ascending(Keys(items, key)) && key(x) !in Keys(items, key)
    ensures Ascending(Keys(Insert(items, x, key), key))
  {
    hide Before;
    if items == [] {
    } else if Before(key(x), key(Last(items))) {
      var rest := Insert(Init(items), x, key);
      assert Keys(Init(items), key) == Init(Keys(items, key));
      InsertAscending(Init(items), x, key);
      var all := Insert(items, x, key);
      forall i | 0 <= i < |rest| ensures Before(key(rest[i]), key(Last(items))) {
        InsertKeepsItems(Init(items), x, key);
        assert rest[i] in multiset(rest);
        if rest[i] in Init(items) {
          var j :| 0 <= j < |items| - 1 && Init(items)[j] == rest[i];
          assert Before(Keys(items, key)[j], Keys(items, key)[|items| - 1]);
        } else {
          assert rest[i] == x;
        }
      }
      forall i, j | 0 <= i < j < |all| ensures Before(Keys(all, key)[i], Keys(all, key)[j]) {
        assert j < |rest| ==> Before(Keys(rest, key)[i], Keys(rest, key)[j]);
      }
    } else {
      var last := key(Last(items));
      assert Keys(items, key)[|items| - 1] == last;
      BeforeTotal(last, key(x));
      var all := items + [x];
      forall i, j | 0 <= i < j < |all| ensures Before(Keys(all, key)[i], Keys(all, key)[j]) {
        if j < |items| {
          assert Before(Keys(items, key)[i], Keys(items, key)[j]);
        } else if i < |items| - 1 {
          assert Before(Keys(items, key)[i], Keys(items, key)[|items| - 1]);
          BeforeTransitive(key(items[i]), last, key(x));
        }
      }
    }
  }

  /** Being equal to its own sorted form means ascending, once keys are distinct. */
  lemma {:induction false} SortedIffAscending<T>(items: seq<T>, key: T -> string)
    requires Distinct(Keys(items, key))
    ensures items == Sorted(items, key) <==> Ascending(Keys(items, key))
  {
    var keys := Keys(items, key);
    if Ascending(keys) {
      AscendingIsSorted(items, key);
    }
    if items == Sorted(items, key) {
      SortedIsAscending(items, key);
    }
  }

  lemma {:induction false} AscendingIsSorted<T>(items: seq<T>, key: T -> string)
    requires Ascending(Keys(items, key))
    ensures Sorted(items, key) == items
  {
    if items != [] {
      assert Keys(Init(items), key) == Init(Keys(items, key));
      AscendingIsSorted(Init(items), key);
      if |items| > 1 {
        var a, b := Keys(items, key)[|items| - 2], Keys(items, key)[|items| - 1];
        assert Before(a, b);
        if Before(b, a) {
          BeforeTransitive(a, b, a);
          BeforeIrreflexive(a);
        }
      }
    }
  }

  lemma KeyOfMember<T>(items: seq<T>, key: T -> string, y: T)
    requires y in items
    ensures key(y) in Keys(items, key)
  {
    var j :| 0 <= j < |items| && items[j] == y;
    assert Keys(items, key)[j] == key(y);
  }

  lemma {:induction false} SortedIsAscending<T>(items: seq<T>, key: T -> string)
    requires Distinct(Keys(items, key))
    ensures Ascending(Keys(Sorted(items, key), key))
  {
    if items != [] {
      var keys := Keys(items, key);
      assert Keys(Init(items), key) == Init(keys);
      SortedIsAscending(Init(items), key);
      var sorted := Sorted(Init(items), key);
      var k := key(Last(items));
      assert keys[|items| - 1] == k && keys == Init(keys) + [k];
      if k in Keys(sorted, key) {
        var i :| 0 <= i < |sorted| && Keys(sorted, key)[i] == k;
        SortedKeepsItems(Init(items), key);
        assert sorted[i] in multiset(sorted);
        KeyOfMember(Init(items), key, sorted[i]);
        assert false;
      }
      InsertAscending(sorted, Last(items), key);
    }
  }

  lemma AscendingLast<T>(items: seq<T>, key: T -> string, y: T)
    requires items != [] && Ascending(Keys(items, key)) && y in items
    ensures y == Last(items) || Before(key(y), key(Last(items)))
  {
    var keys := Keys(items, key);
    var i :| 0 <= i < |items| && items[i] == y;
    assert i < |items| - 1 ==> Before(keys[i], keys[|items| - 1]);
  }

  /** Items in ascending order of distinct keys are determined by what they are. */
  lemma {:induction false} AscendingUnique<T>(a: seq<T>, b: seq<T>, key: T -> string)
    requires Ascending(Keys(a, key)) && Ascending(Keys(b, key)) && multiset(a) == multiset(b)
    ensures a == b
  {
    hide Before, Keys, Ascending;
    SameSize(a, b);
    if a != [] {
      SameLast(a, b, key);
      AscendingInit(a, key);
      AscendingInit(b, key);
      SameInit(a, b);
      AscendingUnique(Init(a), Init(b), key);
      Rejoin(a);
      Rejoin(b);
    }
  }

  lemma SameSize<T>(a: seq<T>, b: seq<T>)
    requires multiset(a) == multiset(b)
    ensures |a| == |b|
  {
    assert |multiset(a)| == |multiset(b)|;
  }

  lemma SameInit<T>(a: seq<T>, b: seq<T>)
    requires a != [] && b != [] && multiset(a) == multiset(b) && Last(a) == Last(b)
    ensures multiset(Init(a)) == multiset(Init(b))
  {
    DropLast(a);
    DropLast(b);
  }

  lemma Rejoin<T>(a: seq<T>)
    requires a != []
    ensures a == Init(a) + [Last(a)]
  {
  }

  lemma SameLast<T>(a: seq<T>, b: seq<T>, key: T -> string)
    requires a != [] && b != [] && Ascending(Keys(a, key)) && Ascending(Keys(b, key)) && multiset(a) == multiset(b)
    ensures Last(a) == Last(b)
  {
    hide Before, Keys, Ascending;
    assert Last(a) in multiset(b) && Last(b) in multiset(a);
    AscendingLast(b, key, Last(a));
    AscendingLast(a, key, Last(b));
    if Last(a) != Last(b) {
      BeforeTransitive(key(Last(a)), key(Last(b)), key(Last(a)));
      BeforeIrreflexive(key(Last(a)));
      assert false;
    }
  }

  lemma DropLast<T>(a: seq<T>)
    requires a != []
    ensures multiset(Init(a)) == multiset(a) - multiset{Last(a)}
  {
    assert a == Init(a) + [Last(a)];
  }

  lemma AscendingInit<T>(a: seq<T>, key: T -> string)
    requires a != [] && Ascending(Keys(a, key))
    ensures Ascending(Keys(Init(a), key))
  {
    assert Keys(Init(a), key) == Init(Keys(a, key));
  }
}
