/**
 * The natural order of Java strings (`String.compareTo`): compare character by
 * character, and when one string is a prefix of the other the shorter comes
 * first. `TreeMap<String, _>` keeps its keys in this order and
 * `Collections.sort` sorts region IDs by it. Dafny's own `<` on sequences is
 * "proper prefix", so the order is written out here.
 */
module LexOrder {

  /** `a.compareTo(b) < 0` */
  predicate Less(a: string, b: string) {
    if a == [] then b != []
    else if b == [] then false
    else if a[0] != b[0] then a[0] < b[0]
    else Less(a[1..], b[1..])
  }

  lemma {:induction false} LessIrreflexive(a: string)
    ensures !Less(a, a)
  {
    if a != [] {
      LessIrreflexive(a[1..]);
    }
  }

  lemma {:induction false} LessAsymmetric(a: string, b: string)
    requires Less(a, b)
    ensures !Less(b, a)
  {
    if a != [] && b != [] && a[0] == b[0] {
      LessAsymmetric(a[1..], b[1..]);
    }
  }

  lemma {:induction false} LessTransitive(a: string, b: string, c: string)
    requires Less(a, b) && Less(b, c)
    ensures Less(a, c)
  {
    if a != [] && a[0] == b[0] && b[0] == c[0] {
      LessTransitive(a[1..], b[1..], c[1..]);
    }
  }

  /** Any two distinct strings are ordered one way or the other. */
  lemma {:induction false} LessTotal(a: string, b: string)
    requires a != b
    ensures Less(a, b) || Less(b, a)
  {
    if a != [] && b != [] && a[0] == b[0] {
      assert a == [a[0]] + a[1..] && b == [b[0]] + b[1..];
      LessTotal(a[1..], b[1..]);
    }
  }

  /** A proper prefix comes first, as in Java. */
  lemma {:induction false} PrefixIsLess(a: string, b: string)
    requires a < b
    ensures Less(a, b)
  {
    if a != [] {
      assert a[1..] < b[1..];
      PrefixIsLess(a[1..], b[1..]);
    }
  }

  /** `g` is the largest element of `s` (what `TreeMap.lastKey` returns). */
  predicate IsGreatest(g: string, s: set<string>) {
    g in s && forall x :: x in s && x != g ==> Less(x, g)
  }

  lemma {:induction false} GreatestExists(s: set<string>)
    requires s != {}
    ensures exists g :: IsGreatest(g, s)
    decreases s
  {
    var x :| x in s;
    if s == {x} {
      assert IsGreatest(x, s);
    } else {
      GreatestExists(s - {x});
      var g :| IsGreatest(g, s - {x});
      if Less(x, g) {
        assert IsGreatest(g, s);
      } else {
        LessTotal(x, g);
        forall y | y in s && y != x
          ensures Less(y, x)
        {
          if y != g {
            LessTransitive(y, g, x);
          }
        }
        assert IsGreatest(x, s);
      }
    }
  }

  lemma GreatestUnique(s: set<string>, g: string, h: string)
    requires IsGreatest(g, s) && IsGreatest(h, s)
    ensures g == h
  {
    if g != h {
      LessAsymmetric(g, h);
    }
  }

  /** The largest element of a non-empty set of strings. */
  function Greatest(s: set<string>): (g: string)
    requires s != {}
    ensures IsGreatest(g, s)
  {
    GreatestExists(s);
    forall g, h | IsGreatest(g, s) && IsGreatest(h, s)
      ensures g == h
    {
      GreatestUnique(s, g, h);
    }
    var g :| IsGreatest(g, s);
    g
  }

  /** Strictly increasing in string order: sorted, with no repeats. */
  predicate StrictlyAscending(xs: seq<string>) {
    forall i, j :: 0 <= i < j < |xs| ==> Less(xs[i], xs[j])
  }

  /**
   * The elements of `s` in ascending order: the key order of a `TreeMap`, and
   * what `Collections.sort` makes of a list holding the elements of a set.
   */
  function Ascending(s: set<string>): (xs: seq<string>)
    ensures StrictlyAscending(xs)
    ensures |xs| == |s|
    ensures forall x :: x in xs <==> x in s
    decreases s
  {
    if s == {} then []
    else
      var g := Greatest(s);
      var rest := Ascending(s - {g});
      assert forall i :: 0 <= i < |rest| ==> Less(rest[i], g);
      rest + [g]
  }

  /** The last element of a strictly ascending sequence is its largest. */
  lemma LastIsGreatest(xs: seq<string>)
    requires StrictlyAscending(xs) && xs != []
    ensures IsGreatest(xs[|xs| - 1], set z | z in xs)
  {
    forall z | z in xs && z != xs[|xs| - 1]
      ensures Less(z, xs[|xs| - 1])
    {
      var i :| 0 <= i < |xs| && xs[i] == z;
    }
  }

  /** Dropping the last element of a strictly ascending sequence removes exactly that element. */
  lemma DropLast(xs: seq<string>)
    requires StrictlyAscending(xs) && xs != []
    ensures StrictlyAscending(xs[..|xs| - 1])
    ensures forall z :: z in xs[..|xs| - 1] <==> z in xs && z != xs[|xs| - 1]
  {
    var init, last := xs[..|xs| - 1], xs[|xs| - 1];
    assert xs == init + [last];
    forall z | z in init
      ensures z != last
    {
      var i :| 0 <= i < |init| && init[i] == z;
      LessIrreflexive(z);
    }
  }

  /**
   * A non-empty sequence holds its first element; stated outside the callers
   * so that the fact carries no assumptions of the branch it is used in.
   */
  lemma HasFirst(xs: seq<string>)
    ensures xs != [] ==> xs[0] in xs
  {
  }

  /** A strictly ascending sequence is fixed by its elements. */
  lemma {:induction false} StrictlyAscendingUnique(xs: seq<string>, ys: seq<string>)
    requires StrictlyAscending(xs) && StrictlyAscending(ys)
    requires forall z :: z in xs <==> z in ys
    ensures xs == ys
    decreases |xs|
  {
    if xs == [] || ys == [] {
      HasFirst(xs);
      HasFirst(ys);
    } else {
      var elements := set z | z in xs;
      LastIsGreatest(xs);
      LastIsGreatest(ys);
      assert (set z | z in ys) == elements;
      GreatestUnique(elements, xs[|xs| - 1], ys[|ys| - 1]);
      var xs', ys' := xs[..|xs| - 1], ys[..|ys| - 1];
      DropLast(xs);
      DropLast(ys);
      assert xs[|xs| - 1] == ys[|ys| - 1];
      forall z
        ensures z in xs' <==> z in ys'
      {
        assert z in xs <==> z in ys;
      }
      StrictlyAscendingUnique(xs', ys');
      assert xs == xs' + [xs[|xs| - 1]];
      assert ys == ys' + [ys[|ys| - 1]];
    }
  }
}
