/** Tuples and strings compared position by position, as sort keys are.

    A key is a sequence of reals, each oriented so that less is better. The comparison is a strict
    total order on keys. A string enters a key as the sequence of its code points, which is
    injective and orders strings as they are ordered in the source. `MinBy` is the first element
    with the least key, as a minimum with a key function returns it. */
module Lexicographic {

  predicate LexLess(a: seq<real>, b: seq<real>) {
    if b == [] then false
    else if a == [] then true
    else if a[0] != b[0] then a[0] < b[0]
    else LexLess(a[1..], b[1..])
  }

  lemma {:induction false} LexIrreflexive(a: seq<real>)
    ensures !LexLess(a, a)
  {
    if a != [] {
      LexIrreflexive(a[1..]);
    }
  }

  lemma {:induction false} LexTransitive(a: seq<real>, b: seq<real>, c: seq<real>)
    requires LexLess(a, b) && LexLess(b, c)
    ensures LexLess(a, c)
  {
    if a != [] && a[0] == b[0] == c[0] {
      LexTransitive(a[1..], b[1..], c[1..]);
    }
  }

  lemma {:induction false} LexTotal(a: seq<real>, b: seq<real>)
    requires a != b
    ensures LexLess(a, b) || LexLess(b, a)
  {
    if a != [] && b != [] && a[0] == b[0] {
      assert a == [a[0]] + a[1..] && b == [b[0]] + b[1..];
      LexTotal(a[1..], b[1..]);
    }
  }

  lemma LexAsymmetric(a: seq<real>, b: seq<real>)
    requires LexLess(a, b)
    ensures !LexLess(b, a)
  {
    if LexLess(b, a) {
      LexTransitive(a, b, a);
      LexIrreflexive(a);
    }
  }

  /** If `a` comes before `c`, then any `b` is after `a` or before `c`. */
  lemma LexNegativelyTransitive(a: seq<real>, b: seq<real>, c: seq<real>)
    requires LexLess(a, c)
    ensures LexLess(a, b) || LexLess(b, c)
  {
    if a != b {
      LexTotal(a, b);
      if LexLess(b, a) {
        LexTransitive(b, a, c);
      }
    }
  }

  /** Preferred for being higher, or else for what decides on a tie. */
  predicate Higher(a: real, b: real, onTie: bool) { a > b || (a == b && onTie) }

  /** Preferred for being lower, or else for what decides on a tie. */
  predicate Lower(a: real, b: real, onTie: bool) { a < b || (a == b && onTie) }

  /** What one position of two keys decides. */
  lemma LexPosition(a: seq<real>, b: seq<real>, i: nat)
    requires i < |a| && i < |b|
    ensures !LexLess(b[i..], a[i..]) <==> a[i] < b[i] || (a[i] == b[i] && !LexLess(b[i + 1..], a[i + 1..]))
  {
    assert a[i..][1..] == a[i + 1..] && b[i..][1..] == b[i + 1..];
  }

  /** The dictionary order of strings: `s` is `t` or comes before it. */
  predicate NotAfter(s: string, t: string) {
    s == "" || (t != "" && (s[0] < t[0] || (s[0] == t[0] && NotAfter(s[1..], t[1..]))))
  }

  lemma {:induction false} CodePointsFollowTheDictionary(s: string, t: string)
    ensures !LexLess(CodePoints(t), CodePoints(s)) <==> NotAfter(s, t)
  {
    if s != "" && t != "" {
      assert CodePoints(s)[1..] == CodePoints(s[1..]) && CodePoints(t)[1..] == CodePoints(t[1..]);
      CodePointsFollowTheDictionary(s[1..], t[1..]);
    }
  }

  /** A string as the sequence of its code points; strings compare as these do. */
  function CodePoints(s: string): (codes: seq<real>)
    ensures |codes| == |s|
  {
    seq(|s|, i requires 0 <= i < |s| => s[i] as int as real)
  }

  lemma CodePointsInjective(s: string, t: string)
    requires CodePoints(s) == CodePoints(t)
    ensures s == t
  {
    assert |s| == |CodePoints(s)| == |t|;
    forall i | 0 <= i < |s| ensures s[i] == t[i] {
      assert CodePoints(s)[i] == CodePoints(t)[i];
    }
  }

  /** The first element with the least key, as `min(rows, key=...)` returns it. */
  function MinBy<T>(rows: seq<T>, key: T -> seq<real>): T
    requires rows != []
  {
    if |rows| == 1 then rows[0]
    else
      var best := MinBy(rows[..|rows| - 1], key);
      if LexLess(key(rows[|rows| - 1]), key(best)) then rows[|rows| - 1] else best
  }

  ghost predicate IsLeast<T>(rows: seq<T>, key: T -> seq<real>, best: T) {
    best in rows && forall i | 0 <= i < |rows| :: !LexLess(key(rows[i]), key(best))
  }

  lemma {:induction false} MinByIsLeast<T(!new)>(rows: seq<T>, key: T -> seq<real>)
    requires rows != []
    ensures IsLeast(rows, key, MinBy(rows, key))
  {
    if |rows| == 1 {
      LexIrreflexive(key(rows[0]));
    } else {
      var front, last := rows[..|rows| - 1], rows[|rows| - 1];
      MinByIsLeast(front, key);
      var best := MinBy(front, key);
      assert rows == front + [last];
      LexIrreflexive(key(last));
      if LexLess(key(last), key(best)) {
        forall i | 0 <= i < |front| ensures !LexLess(key(front[i]), key(last)) {
          if LexLess(key(front[i]), key(last)) {
            LexTransitive(key(front[i]), key(last), key(best));
          }
        }
      }
    }
  }
}
