/**
 The string operations that flow keys and rule matching rely on.
 */
module Text {
  function LowerChar(c: char): (l: char)
    ensures if 'A' <= c <= 'Z' then l as int == c as int + 32 else l == c
  {
    if 'A' <= c <= 'Z' then c - 'A' + 'a' else c
  }

  /** Lower-cases the ASCII letters. */
  function Lower(s: string): (r: string)
    ensures |r| == |s| && forall i | 0 <= i < |s| :: r[i] == LowerChar(s[i])
  {
    seq(|s|, i requires 0 <= i < |s| => LowerChar(s[i]))
  }

  /** Lexicographic order by code point; a proper prefix comes first. */
  predicate Before(a: string, b: string) {
    if a == [] then b != []
    else b != [] && (a[0] < b[0] || (a[0] == b[0] && Before(a[1..], b[1..])))
  }

  lemma {:induction false} BeforeIsStrict(a: string)
    ensures !Before(a, a)
  {
    if a != [] { BeforeIsStrict(a[1..]); }
  }

  /** Of two different strings exactly one comes before the other. */
  lemma {:induction false} BeforeIsTotal(a: string, b: string)
    requires a != b
    ensures Before(a, b) <==> !Before(b, a)
  {
    if a != [] && b != [] && a[0] == b[0] {
      assert a == [a[0]] + a[1..] && b == [b[0]] + b[1..];
      BeforeIsTotal(a[1..], b[1..]);
    }
  }

  /** One string comes before another when it is a proper prefix, or has the smaller character where they first differ. */
  lemma {:induction false} BeforeExactly(a: string, b: string)
    ensures Before(a, b) <==> exists i :: FirstDifference(a, b, i)
  {
    if a != [] && b != [] && a[0] == b[0] {
      BeforeExactly(a[1..], b[1..]);
      if i: nat :| FirstDifference(a, b, i) {
        assert a[..i][1..] == a[1..][..i - 1] && b[..i][1..] == b[1..][..i - 1];
        assert FirstDifference(a[1..], b[1..], i - 1);
      }
      if i: nat :| FirstDifference(a[1..], b[1..], i) {
        assert a == [a[0]] + a[1..] && b == [b[0]] + b[1..];
        assert a[..i + 1] == [a[0]] + a[1..][..i] && b[..i + 1] == [b[0]] + b[1..][..i];
        assert FirstDifference(a, b, i + 1);
      }
    } else if Before(a, b) {
      assert FirstDifference(a, b, 0);
    } else if i: nat :| FirstDifference(a, b, i) {
      if i > 0 { FirstIsSame(a, b, i); }
    }
  }

  lemma FirstIsSame(a: string, b: string, i: nat)
    requires i > 0 && FirstDifference(a, b, i)
    ensures a[0] == b[0]
  {
    assert a[..i][0] == a[0] && b[..i][0] == b[0];
  }

  ghost predicate FirstDifference(a: string, b: string, i: nat) {
    i <= |a| && i < |b| && a[..i] == b[..i] && (i == |a| || a[i] < b[i])
  }

  /** Lower-casing forgets exactly the case of ASCII letters. */
  lemma SameLower(a: string, b: string)
    ensures Lower(a) == Lower(b) <==>
            |a| == |b| && forall i | 0 <= i < |a| ::
              a[i] == b[i]
              || ('A' <= a[i] <= 'Z' && b[i] as int == a[i] as int + 32)
              || ('A' <= b[i] <= 'Z' && a[i] as int == b[i] as int + 32)
  {
    if Lower(a) == Lower(b) {
      forall i | 0 <= i < |a|
        ensures a[i] == b[i] || ('A' <= a[i] <= 'Z' && b[i] as int == a[i] as int + 32)
             || ('A' <= b[i] <= 'Z' && a[i] as int == b[i] as int + 32)
      {
        assert Lower(a)[i] == Lower(b)[i];
      }
    }
  }
}
