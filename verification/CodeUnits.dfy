/**
 * Text as the original sees it: sequences of UTF-16 code units, compared unit by
 * unit. Surrogates are ordinary units, which is why Dafny's char is not used.
 */
module CodeUnits {
  import opened Sequences

  type CodeUnit = x: int | 0 <= x < 0x10000
  type Text = seq<CodeUnit>

  /** A unit so many times over. */
  function Repeated(u: CodeUnit, n: nat): (t: Text)
    ensures |t| == n && forall i :: 0 <= i < n ==> t[i] == u
  {
    seq(n, _ => u)
  }

  /** The order of `<` on strings. */
  predicate Before(a: Text, b: Text) {
    b != [] && (a == [] || a[0] < b[0] || (a[0] == b[0] && Before(a[1..], b[1..])))
  }

  lemma {:induction false} BeforeIsStrictTotal(a: Text, b: Text)
    ensures a == b <==> !Before(a, b) && !Before(b, a)
    ensures !(Before(a, b) && Before(b, a))
  {
    if a != [] && b != [] {
      BeforeIsStrictTotal(a[1..], b[1..]);
      assert a == [a[0]] + a[1..] && b == [b[0]] + b[1..];
    }
  }

  lemma {:induction false} BeforeTransitive(a: Text, b: Text, c: Text)
    requires Before(a, b) && Before(b, c)
    ensures Before(a, c)
  {
    if a != [] && a[0] == b[0] == c[0] { BeforeTransitive(a[1..], b[1..], c[1..]); }
  }

  // ------------------------------------------------------- sorting by identity

  datatype Tagged<T> = Tagged(id: Text, value: T)

  /** A stable sort by identity. */
  function SortById<T>(s: seq<Tagged<T>>): seq<Tagged<T>> {
    if s == [] then [] else Insert(s[0], SortById(s[1..]))
  }

  function Insert<T>(x: Tagged<T>, s: seq<Tagged<T>>): seq<Tagged<T>> {
    if s != [] && Before(s[0].id, x.id) then [s[0]] + Insert(x, s[1..]) else [x] + s
  }

  function Ids<T>(s: seq<Tagged<T>>): set<Text> {
    set i | 0 <= i < |s| :: s[i].id
  }

  /** As many identities as entries. */
  predicate DistinctIds<T>(s: seq<Tagged<T>>) {
    |Ids(s)| == |s|
  }

  lemma {:induction false} IdCount<T>(s: seq<Tagged<T>>)
    ensures |Ids(s)| <= |s|
    ensures DistinctIds(s) ==> forall i, j :: 0 <= i < j < |s| ==> s[i].id != s[j].id
  {
    if s != [] {
      var t, x := s[..|s| - 1], s[|s| - 1];
      IdCount(t);
      forall i | 0 <= i < |s| ensures s[i].id in Ids(t) + {x.id} {
        if i < |t| { assert t[i] == s[i]; }
      }
      forall i | 0 <= i < |t| ensures t[i].id in Ids(s) { assert s[i] == t[i]; }
      assert Ids(s) == Ids(t) + {x.id};
      if DistinctIds(s) {
        assert x.id !in Ids(t);
        forall i, j | 0 <= i < j < |s| ensures s[i].id != s[j].id {
          assert t[i].id in Ids(t);
        }
      }
    }
  }

  ghost predicate StrictlySorted<T>(s: seq<Tagged<T>>) {
    forall i, j :: 0 <= i < j < |s| ==> Before(s[i].id, s[j].id)
  }

  lemma {:induction false} InsertKeepsElements<T>(x: Tagged<T>, s: seq<Tagged<T>>)
    ensures Elements(Insert(x, s)) == Elements(s) + {x}
  {
    if s != [] && Before(s[0].id, x.id) {
      InsertKeepsElements(x, s[1..]);
      assert s == [s[0]] + s[1..];
      ElementsFirst(s[0], s[1..]);
      ElementsFirst(s[0], Insert(x, s[1..]));
    } else {
      ElementsFirst(x, s);
    }
  }

  lemma LeastFirst<T>(x: Tagged<T>, s: seq<Tagged<T>>)
    requires StrictlySorted(s) && forall y <- s :: Before(x.id, y.id)
    ensures StrictlySorted([x] + s)
  {
  }

  lemma {:induction false} InsertKeepsOrder<T>(x: Tagged<T>, s: seq<Tagged<T>>)
    requires StrictlySorted(s) && forall y <- s :: y.id != x.id
    ensures StrictlySorted(Insert(x, s))
  {
    hide Before;
    if s != [] {
      BeforeIsStrictTotal(s[0].id, x.id);
      if Before(s[0].id, x.id) {
        InsertKeepsOrder(x, s[1..]);
        InsertKeepsElements(x, s[1..]);
        forall y <- Insert(x, s[1..]) ensures Before(s[0].id, y.id) {
          assert y in Elements(s[1..]) + {x};
        }
        LeastFirst(s[0], Insert(x, s[1..]));
      } else {
        forall y <- s ensures Before(x.id, y.id) {
          if y != s[0] { BeforeTransitive(x.id, s[0].id, y.id); }
        }
        LeastFirst(x, s);
      }
    }
  }

  lemma {:induction false} SortByIdSorts<T>(s: seq<Tagged<T>>)
    requires forall i, j :: 0 <= i < j < |s| ==> s[i].id != s[j].id
    ensures StrictlySorted(SortById(s)) && Elements(SortById(s)) == Elements(s)
  {
    if s != [] {
      var t := s[1..];
      SortByIdSorts(t);
      assert s == [s[0]] + t;
      forall y <- SortById(t) ensures y.id != s[0].id {
        assert y in Elements(t);
      }
      InsertKeepsOrder(s[0], SortById(t));
      InsertKeepsElements(s[0], SortById(t));
    }
  }

  lemma {:induction false} StrictlySortedUnique<T>(a: seq<Tagged<T>>, b: seq<Tagged<T>>)
    requires StrictlySorted(a) && StrictlySorted(b) && Elements(a) == Elements(b)
    ensures a == b
  {
    if a == [] || b == [] {
      NoElements(a);
      NoElements(b);
    } else {
      SameHead(a, b);
      TailElements(a);
      TailElements(b);
      StrictlySortedUnique(a[1..], b[1..]);
      assert a == [a[0]] + a[1..] && b == [b[0]] + b[1..];
    }
  }

  lemma SameHead<T>(a: seq<Tagged<T>>, b: seq<Tagged<T>>)
    requires StrictlySorted(a) && StrictlySorted(b) && Elements(a) == Elements(b) && a != [] && b != []
    ensures a[0] == b[0]
  {
    assert a[0] in Elements(b) && b[0] in Elements(a);
    var i :| 0 <= i < |b| && b[i] == a[0];
    var j :| 0 <= j < |a| && a[j] == b[0];
    BeforeIsStrictTotal(a[0].id, b[0].id);
  }

  lemma TailElements<T>(a: seq<Tagged<T>>)
    requires StrictlySorted(a) && a != []
    ensures Elements(a[1..]) == Elements(a) - {a[0]}
  {
    assert a == [a[0]] + a[1..];
    BeforeIsStrictTotal(a[0].id, a[0].id);
    forall y <- a[1..] ensures y != a[0] {}
  }

  /** Sorting forgets the order in which distinctly named things were supplied. */
  lemma SortForgetsOrder<T>(a: seq<Tagged<T>>, b: seq<Tagged<T>>)
    requires multiset(a) == multiset(b)
    ensures DistinctIds(a) <==> DistinctIds(b)
    ensures DistinctIds(a) ==> SortById(a) == SortById(b)
  {
    SameElements(a, b);
    SameElements(b, a);
    assert |a| == |multiset(a)| == |multiset(b)| == |b|;
    assert Ids(a) == Ids(b);
    if DistinctIds(a) {
      IdCount(a);
      IdCount(b);
      SortByIdSorts(a);
      SortByIdSorts(b);
      StrictlySortedUnique(SortById(a), SortById(b));
    }
  }

  lemma SameElements<T>(a: seq<Tagged<T>>, b: seq<Tagged<T>>)
    requires multiset(a) == multiset(b)
    ensures Elements(a) <= Elements(b) && Ids(a) <= Ids(b)
  {
    forall x <- a ensures x in b { assert x in multiset(a); }
    forall i | 0 <= i < |a| ensures a[i].id in Ids(b) {
      assert a[i] in b;
    }
  }

  // ------------------------------------------------------- digests as numbers

  predicate HexDigit(u: CodeUnit) {
    0x30 <= u <= 0x39 || 0x61 <= u <= 0x66
  }

  function HexValue(u: CodeUnit): nat
    requires HexDigit(u)
  {
    if u <= 0x39 then u - 0x30 else u - 0x61 + 10
  }

  ghost predicate Hex(s: Text) {
    forall u <- s :: HexDigit(u)
  }

  function Pow16(n: nat): nat {
    if n == 0 then 1 else 16 * Pow16(n - 1)
  }

  ghost function DigestValue(s: Text): nat
    requires Hex(s)
  {
    if s == [] then 0 else HexValue(s[0]) * Pow16(|s| - 1) + DigestValue(s[1..])
  }

  lemma {:induction false} DigestBound(s: Text)
    requires Hex(s)
    ensures DigestValue(s) < Pow16(|s|)
  {
    if s != [] {
      DigestBound(s[1..]);
      ScaledDigit(HexValue(s[0]), 15, Pow16(|s| - 1));
    }
  }

  lemma {:induction false} ScaledDigit(a: nat, b: nat, p: nat)
    requires a <= b
    ensures a * p <= b * p && (a < b ==> a * p + p <= b * p)
  {
    if a < b {
      ScaledDigit(a, b - 1, p);
      assert (b - 1 + 1) * p == (b - 1) * p + p;
    }
  }

  /**
   * Two lower-case hexadecimal digests of one length compare, unit by unit, as the
   * numbers they spell. The usage keys are modelled as those numbers.
   */
  lemma {:induction false} DigestOrder(a: Text, b: Text)
    requires Hex(a) && Hex(b) && |a| == |b|
    ensures Before(a, b) <==> DigestValue(a) < DigestValue(b)
  {
    if a != [] {
      DigestOrder(a[1..], b[1..]);
      DigestBound(a[1..]);
      DigestBound(b[1..]);
      var p, x, y := Pow16(|a| - 1), HexValue(a[0]), HexValue(b[0]);
      if x <= y { ScaledDigit(x, y, p); } else { ScaledDigit(y, x, p); }
    }
  }
}
