/** Dotted numeric versions such as "13315.60.12": parsing from text, the
    canonical spelling, and the component-wise comparison the minimum-version
    rule uses. */
module Versions {
  import opened Wrappers
  import opened Strings

  /** A version is a non-empty sequence of numeric components. */
  type Version = c: seq<nat> | |c| > 0 witness [0]

  predicate IsDigit(c: char)
  {
    '0' <= c <= '9'
  }

  predicate AllDigits(s: string)
  {
    forall i :: 0 <= i < |s| ==> IsDigit(s[i])
  }

  /** The number a string of decimal digits spells. */
  function DigitsValue(s: string): nat
    requires AllDigits(s)
  {
    if s == [] then 0 else 10 * DigitsValue(s[..|s| - 1]) + (s[|s| - 1] as int - '0' as int)
  }

  /** The decimal spelling of `n`, without leading zeros. */
  function NatToDigits(n: nat): (s: string)
    ensures s != [] && AllDigits(s)
  {
    if n < 10 then [(48 + n) as char] else NatToDigits(n / 10) + [(48 + n % 10) as char]
  }

  lemma {:induction false} DigitsRoundTrip(n: nat)
    ensures DigitsValue(NatToDigits(n)) == n
  {
    if n >= 10 {
      DigitsRoundTrip(n / 10);
      var s := NatToDigits(n);
      assert s[..|s| - 1] == NatToDigits(n / 10);
    }
  }

  /** A component's spelling: a non-empty run of decimal digits. */
  predicate IsNumeral(s: string)
  {
    s != "" && AllDigits(s)
  }

  function ParseComponent(s: string): Option<nat>
  {
    if IsNumeral(s) then Some(DigitsValue(s)) else None
  }

  function ParseComponents(pieces: seq<string>): (r: Option<seq<nat>>)
    ensures r.Some? <==> forall i :: 0 <= i < |pieces| ==> ParseComponent(pieces[i]).Some?
    ensures r.Some? ==> (|r.value| == |pieces| &&
      forall i :: 0 <= i < |pieces| ==> Some(r.value[i]) == ParseComponent(pieces[i]))
  {
    if pieces == [] then Some([])
    else
      match (ParseComponent(pieces[0]), ParseComponents(pieces[1..]))
      case (Some(n), Some(rest)) => Some([n] + rest)
      case _ => None
  }

  /** A version is valid when every dot-separated piece is a non-empty run of
      decimal digits; anything else is invalid. */
  function Parse(s: string): (r: Option<Version>)
    ensures var pieces := SplitOn(s, '.');
      && (r.Some? <==> forall i :: 0 <= i < |pieces| ==> IsNumeral(pieces[i]))
      && (r.Some? ==> (|r.value| == |pieces| &&
            forall i :: 0 <= i < |pieces| ==> IsNumeral(pieces[i]) && r.value[i] == DigitsValue(pieces[i])))
  {
    var pieces := SplitOn(s, '.');
    match ParseComponents(pieces)
    case Some(components) => Some(components)
    case None =>
      var i :| 0 <= i < |pieces| && ParseComponent(pieces[i]).None?;
      assert !IsNumeral(pieces[i]);
      assert !(forall j :: 0 <= j < |pieces| ==> IsNumeral(pieces[j]));
      assert pieces == SplitOn(s, '.');
      None
  }

  /** The canonical spelling: the components in decimal, joined by dots. */
  function Format(v: Version): string
  {
    Join(seq(|v|, i requires 0 <= i < |v| => NatToDigits(v[i])), ".")
  }

  lemma {:induction false} ParseComponentsOfDigits(ns: seq<nat>)
    ensures ParseComponents(seq(|ns|, i requires 0 <= i < |ns| => NatToDigits(ns[i]))) == Some(ns)
  {
    if ns != [] {
      var pieces := seq(|ns|, i requires 0 <= i < |ns| => NatToDigits(ns[i]));
      DigitsRoundTrip(ns[0]);
      assert pieces[1..] == seq(|ns[1..]|, i requires 0 <= i < |ns[1..]| => NatToDigits(ns[1..][i]));
      ParseComponentsOfDigits(ns[1..]);
      assert [ns[0]] + ns[1..] == ns;
    }
  }

  /** Parsing the canonical spelling of a version gives the version back. */
  lemma ParseFormat(v: Version)
    ensures Parse(Format(v)) == Some(v)
  {
    var pieces := seq(|v|, i requires 0 <= i < |v| => NatToDigits(v[i]));
    forall i | 0 <= i < |pieces| ensures '.' !in pieces[i] {
      assert AllDigits(pieces[i]);
    }
    SplitJoin(pieces, '.');
    ParseComponentsOfDigits(v);
  }

  /** The component at `i`, or 0 past the end. */
  function ComponentOrZero(v: seq<nat>, i: nat): nat
  {
    if i < |v| then v[i] else 0
  }

  /** Component-wise comparison, first difference deciding; a missing
      component counts as 0. The result is -1, 0 or 1. */
  function CompareTo(a: seq<nat>, b: seq<nat>): (r: int)
    ensures -1 <= r <= 1
    ensures r == 0 <==> forall i :: 0 <= i < |a| + |b| ==> ComponentOrZero(a, i) == ComponentOrZero(b, i)
    decreases |a| + |b|
  {
    if a == [] && b == [] then 0
    else
      var x, y := ComponentOrZero(a, 0), ComponentOrZero(b, 0);
      if x < y then -1
      else if x > y then 1
      else
        CompareToStep(a, b);
        CompareTo(if a == [] then [] else a[1..], if b == [] then [] else b[1..])
  }

  /** Padded equality of two versions is equality of the first components and
      padded equality of the rests. */
  lemma CompareToStep(a: seq<nat>, b: seq<nat>)
    requires a != [] || b != []
    ensures var ta, tb := (if a == [] then [] else a[1..]), (if b == [] then [] else b[1..]);
      (forall i :: 0 <= i < |a| + |b| ==> ComponentOrZero(a, i) == ComponentOrZero(b, i)) <==>
      (ComponentOrZero(a, 0) == ComponentOrZero(b, 0) &&
       forall i :: 0 <= i < |ta| + |tb| ==> ComponentOrZero(ta, i) == ComponentOrZero(tb, i))
  {
    var ta, tb := (if a == [] then [] else a[1..]), (if b == [] then [] else b[1..]);
    assert forall i :: 0 <= i ==> ComponentOrZero(ta, i) == ComponentOrZero(a, i + 1);
    assert forall i :: 0 <= i ==> ComponentOrZero(tb, i) == ComponentOrZero(b, i + 1);
    if ComponentOrZero(a, 0) == ComponentOrZero(b, 0) &&
       forall i :: 0 <= i < |ta| + |tb| ==> ComponentOrZero(ta, i) == ComponentOrZero(tb, i)
    {
      forall i | 0 <= i < |a| + |b| ensures ComponentOrZero(a, i) == ComponentOrZero(b, i) {
        if i > 0 && i - 1 >= |ta| + |tb| {
          assert i >= |a| && i >= |b|;
        } else if i > 0 {
          assert ComponentOrZero(ta, i - 1) == ComponentOrZero(tb, i - 1);
        }
      }
    }
  }

  /** `a` is an older version than `b`. */
  predicate Less(a: seq<nat>, b: seq<nat>)
    ensures Less(a, b) ==> CompareTo(b, a) > 0
  {
    CompareToAntisymmetric(a, b);
    CompareTo(a, b) < 0
  }

  /** Every version compares equal to itself. */
  lemma {:induction false} CompareToReflexive(a: seq<nat>)
    ensures CompareTo(a, a) == 0
  {
    if a != [] {
      CompareToReflexive(a[1..]);
    }
  }

  /** Swapping the operands negates the comparison. */
  lemma {:induction false} CompareToAntisymmetric(a: seq<nat>, b: seq<nat>)
    ensures CompareTo(a, b) == -CompareTo(b, a)
    decreases |a| + |b|
  {
    if !(a == [] && b == []) {
      CompareToAntisymmetric(if a == [] then [] else a[1..], if b == [] then [] else b[1..]);
    }
  }

  /** Less is transitive. */
  lemma {:induction false} LessTransitive(a: seq<nat>, b: seq<nat>, c: seq<nat>)
    requires Less(a, b) && Less(b, c)
    ensures Less(a, c)
    decreases |a| + |b| + |c|
  {
    var ta, tb, tc := if a == [] then [] else a[1..], if b == [] then [] else b[1..], if c == [] then [] else c[1..];
    if ComponentOrZero(a, 0) == ComponentOrZero(b, 0) == ComponentOrZero(c, 0) {
      LessTransitive(ta, tb, tc);
    }
  }

  /** For versions with the same number of components, Less is the
      lexicographic order: equal up to some component, smaller there. */
  lemma {:induction false} LessLexicographic(a: seq<nat>, b: seq<nat>)
    requires |a| == |b|
    ensures Less(a, b) <==> exists k :: 0 <= k < |a| && a[..k] == b[..k] && a[k] < b[k]
  {
    if a != [] {
      LessLexicographic(a[1..], b[1..]);
      if Less(a, b) {
        if a[0] == b[0] {
          var k :| 0 <= k < |a[1..]| && a[1..][..k] == b[1..][..k] && a[1..][k] < b[1..][k];
          assert a[..k + 1] == [a[0]] + a[1..][..k];
          assert b[..k + 1] == [b[0]] + b[1..][..k];
        } else {
          assert a[..0] == b[..0];
        }
      } else {
        forall k | 0 <= k < |a| && a[..k] == b[..k] ensures a[k] >= b[k] {
          if k > 0 {
            assert a[0] == a[..k][0] == b[..k][0] == b[0];
            assert a[1..][..k - 1] == a[..k][1..] == b[..k][1..] == b[1..][..k - 1];
          }
        }
      }
    }
  }
}
