/** Joining strings with a separator, as base::JoinString does, and splitting a
    string at a separator character, the inverse used to state what a joined
    string holds. */
module Strings {

  /** base::JoinString: the parts in order with `sep` between consecutive
      ones; the empty string when there are no parts. */
  function Join(parts: seq<string>, sep: string): (r: string)
    ensures |r| == TotalLength(parts) + (if parts == [] then 0 else (|parts| - 1) * |sep|)
    ensures parts != [] ==> parts[0] <= r
  {
    if |parts| == 0 then ""
    else if |parts| == 1 then parts[0]
    else parts[0] + sep + Join(parts[1..], sep)
  }

  /** The summed length of the parts. */
  function TotalLength(parts: seq<string>): nat
  {
    if parts == [] then 0 else |parts[0]| + TotalLength(parts[1..])
  }

  /** Splits `s` at every occurrence of `c`, keeping empty pieces, so that
      there is always one piece more than there are occurrences of `c`. */
  function SplitOn(s: string, c: char): (pieces: seq<string>)
    ensures |pieces| >= 1
  {
    if s == [] then [""]
    else
      var rest := SplitOn(s[1..], c);
      if s[0] == c then [""] + rest
      else [[s[0]] + rest[0]] + rest[1..]
  }

  /** The space-separated tokens of `s`; the empty string holds none. */
  function Tokens(s: string): seq<string>
  {
    if s == "" then [] else SplitOn(s, ' ')
  }

  /** Every part is non-empty and free of the character `c`. */
  predicate CleanParts(parts: seq<string>, c: char)
  {
    forall i :: 0 <= i < |parts| ==> parts[i] != "" && c !in parts[i]
  }

  lemma {:induction false} SplitOnFree(p: string, c: char)
    requires c !in p
    ensures SplitOn(p, c) == [p]
  {
    if p != [] {
      SplitOnFree(p[1..], c);
      assert [p[0]] + p[1..] == p;
    }
  }

  /** Splitting a piece free of `c` followed by `c` peels that piece off. */
  lemma {:induction false} SplitOnPrefix(p: string, c: char, rest: string)
    requires c !in p
    ensures SplitOn(p + [c] + rest, c) == [p] + SplitOn(rest, c)
  {
    if p == [] {
      assert p + [c] + rest == [c] + rest;
      assert ([c] + rest)[1..] == rest;
    } else {
      var s := p + [c] + rest;
      assert s[0] == p[0] && s[1..] == p[1..] + [c] + rest;
      SplitOnPrefix(p[1..], c, rest);
      assert [p[0]] + p[1..] == p;
    }
  }

  /** Splitting a joined string gives the parts back when none of them
      contains the separator. */
  lemma {:induction false} SplitJoin(parts: seq<string>, c: char)
    requires |parts| >= 1
    requires forall i :: 0 <= i < |parts| ==> c !in parts[i]
    ensures SplitOn(Join(parts, [c]), c) == parts
  {
    if |parts| == 1 {
      SplitOnFree(parts[0], c);
    } else {
      SplitJoin(parts[1..], c);
      SplitOnPrefix(parts[0], c, Join(parts[1..], [c]));
      assert [parts[0]] + parts[1..] == parts;
    }
  }

  /** Joining non-empty parts gives the empty string exactly when there are
      no parts. */
  lemma {:induction false} JoinEmptyIff(parts: seq<string>, sep: string)
    requires forall i :: 0 <= i < |parts| ==> parts[i] != ""
    ensures Join(parts, sep) == "" <==> parts == []
  {
    if |parts| >= 2 {
      assert |Join(parts, sep)| >= |parts[0]| > 0;
    }
  }

  /** The tokens of a space-joined list of non-empty, space-free parts are
      exactly those parts, in order: one token per part, none of them empty,
      so no doubled, leading or trailing space. */
  lemma {:induction false} TokensJoin(parts: seq<string>)
    requires CleanParts(parts, ' ')
    ensures Tokens(Join(parts, " ")) == parts
    ensures forall t :: t in Tokens(Join(parts, " ")) ==> t != ""
  {
    JoinEmptyIff(parts, " ");
    if parts != [] {
      SplitJoin(parts, ' ');
    }
  }
}
