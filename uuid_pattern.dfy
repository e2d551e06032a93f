/** The anchored pattern EnsureFilePermissions uses to recognise server data
    directories, `^[a-f0-9]{8}-[a-f0-9]{4}-4[a-f0-9]{3}-[89ab][a-f0-9]{3}-[a-f0-9]{12}$`:
    the lower-case textual form of a version-4 UUID (section 3 of RFC 4122).

    The pattern is kept in the shape of the regular expression (a list of
    bracket expressions with fixed repetition counts, matched against the
    whole string), and it is proved equal to a position-by-position
    description of the accepted names. */
module UuidPattern {

  /** A bracket expression such as `[a-f0-9]`: a list of inclusive ranges. */
  datatype CharClass = Ranges(ranges: seq<(char, char)>)

  /** One atom of the pattern repeated exactly `count` times: `[a-f0-9]{8}`,
      or a literal character (count 1). */
  datatype Term = Term(cls: CharClass, count: nat)

  predicate InRanges(ranges: seq<(char, char)>, c: char) {
    ranges != [] && (ranges[0].0 <= c <= ranges[0].1 || InRanges(ranges[1..], c))
  }

  predicate InClass(cls: CharClass, c: char) {
    InRanges(cls.ranges, c)
  }

  /** Every character of `s` lies in `cls`. */
  predicate AllInClass(cls: CharClass, s: string) {
    s == [] || (InClass(cls, s[0]) && AllInClass(cls, s[1..]))
  }

  function Literal(c: char): CharClass { Ranges([(c, c)]) }

  const HexDigit: CharClass := Ranges([('a', 'f'), ('0', '9')])      // [a-f0-9]
  const VariantDigit: CharClass := Ranges([('8', '9'), ('a', 'b')])  // [89ab]

  /** The pattern of config/config.go, term by term. */
  const UuidV4Pattern: seq<Term> := [
    Term(HexDigit, 8), Term(Literal('-'), 1),
    Term(HexDigit, 4), Term(Literal('-'), 1),
    Term(Literal('4'), 1), Term(HexDigit, 3), Term(Literal('-'), 1),
    Term(VariantDigit, 1), Term(HexDigit, 3), Term(Literal('-'), 1),
    Term(HexDigit, 12)
  ]

  /** The number of characters a pattern of fixed-count terms consumes. */
  function Width(p: seq<Term>): nat
    decreases |p|
  {
    if p == [] then 0 else p[0].count + Width(p[1..])
  }

  /** Anchored match (`^…$`) of a pattern of fixed-count terms: each term
      consumes exactly its count of characters, and nothing may be left over. */
  predicate MatchString(p: seq<Term>, s: string): (b: bool)
    ensures b ==> |s| == Width(p)
    decreases |p|
  {
    if p == [] then s == []
    else
      && p[0].count <= |s|
      && AllInClass(p[0].cls, s[..p[0].count])
      && MatchString(p[1..], s[p[0].count..])
  }

  // ---------------------------------------------------------------------
  // Reference description of the accepted names

  predicate IsLowerHex(c: char) {
    'a' <= c <= 'f' || '0' <= c <= '9'
  }

  predicate IsDashPosition(i: int) {
    i == 8 || i == 13 || i == 18 || i == 23
  }

  /** 36 characters, `-` at positions 8, 13, 18 and 23, lower-case hex
      everywhere else, version nibble `4` at position 14, variant nibble in
      {8, 9, a, b} at position 19. */
  predicate IsUuidV4Name(s: string) {
    && |s| == 36
    && (forall i | 0 <= i < 36 && IsDashPosition(i) :: s[i] == '-')
    && (forall i | 0 <= i < 36 && !IsDashPosition(i) :: IsLowerHex(s[i]))
    && s[14] == '4'
    && s[19] in {'8', '9', 'a', 'b'}
  }

  // ---------------------------------------------------------------------
  // The pattern as one character class per position

  function Repeat(cls: CharClass, n: nat): (r: seq<CharClass>)
    ensures |r| == n && forall i | 0 <= i < n :: r[i] == cls
  {
    if n == 0 then [] else [cls] + Repeat(cls, n - 1)
  }

  /** The class each character position of a match must belong to. */
  function Expand(p: seq<Term>): seq<CharClass>
    decreases |p|
  {
    if p == [] then [] else Repeat(p[0].cls, p[0].count) + Expand(p[1..])
  }

  lemma {:induction false} AllInClassAt(cls: CharClass, s: string)
    ensures AllInClass(cls, s) <==> forall i | 0 <= i < |s| :: InClass(cls, s[i])
  {
    if s != [] {
      AllInClassAt(cls, s[1..]);
      assert forall i | 1 <= i < |s| :: s[1..][i - 1] == s[i];
    }
  }

  /** Every character of `s` lies in the class of its position in `cs`. */
  predicate Fits(cs: seq<CharClass>, s: string) {
    |s| == |cs| && forall i | 0 <= i < |s| :: InClass(cs[i], s[i])
  }

  lemma FitsConcat(head: seq<CharClass>, tail: seq<CharClass>, s: string)
    requires |head| <= |s|
    ensures Fits(head + tail, s) <==> Fits(head, s[..|head|]) && Fits(tail, s[|head|..])
  {
  }

  /** A fixed-count pattern matches exactly the strings whose every character
      lies in the class of its position. */
  lemma {:induction false} MatchStringPositionwise(p: seq<Term>, s: string)
    ensures MatchString(p, s) <==> Fits(Expand(p), s)
    decreases |p|
  {
    if p != [] {
      var n := p[0].count;
      var head := Repeat(p[0].cls, n);
      assert Expand(p) == head + Expand(p[1..]);
      if n <= |s| {
        MatchStringPositionwise(p[1..], s[n..]);
        AllInClassAt(p[0].cls, s[..n]);
        FitsConcat(head, Expand(p[1..]), s);
      }
    }
  }

  /** The class the UUID pattern assigns to position `i`. */
  function PositionClass(i: int): CharClass {
    if IsDashPosition(i) then Literal('-')
    else if i == 14 then Literal('4')
    else if i == 19 then VariantDigit
    else HexDigit
  }

  /** `cs` gives the classes of the UUID positions from `offset` to the end. */
  predicate ClassesFrom(cs: seq<CharClass>, offset: int) {
    offset + |cs| == 36 && forall i | 0 <= i < |cs| :: cs[i] == PositionClass(offset + i)
  }

  lemma ClassesFromStep(t: Term, rest: seq<Term>, offset: int)
    requires forall j | offset <= j < offset + t.count :: PositionClass(j) == t.cls
    requires ClassesFrom(Expand(rest), offset + t.count)
    ensures ClassesFrom(Expand([t] + rest), offset)
  {
  }

  lemma ExpandUuidV4PatternFrom8()
    ensures ClassesFrom(Expand(UuidV4Pattern[8..]), 20)
  {
    assert UuidV4Pattern[11..] == [];
    assert UuidV4Pattern[10..] == [Term(HexDigit, 12)] + UuidV4Pattern[11..];
    assert forall j | 24 <= j < 36 :: PositionClass(j) == HexDigit;
    ClassesFromStep(Term(HexDigit, 12), UuidV4Pattern[11..], 24);
    assert UuidV4Pattern[9..] == [Term(Literal('-'), 1)] + UuidV4Pattern[10..];
    assert forall j | 23 <= j < 24 :: PositionClass(j) == Literal('-');
    ClassesFromStep(Term(Literal('-'), 1), UuidV4Pattern[10..], 23);
    assert UuidV4Pattern[8..] == [Term(HexDigit, 3)] + UuidV4Pattern[9..];
    assert forall j | 20 <= j < 23 :: PositionClass(j) == HexDigit;
    ClassesFromStep(Term(HexDigit, 3), UuidV4Pattern[9..], 20);
  }

  lemma ExpandUuidV4PatternFrom4()
    ensures ClassesFrom(Expand(UuidV4Pattern[4..]), 14)
  {
    ExpandUuidV4PatternFrom8();
    assert UuidV4Pattern[7..] == [Term(VariantDigit, 1)] + UuidV4Pattern[8..];
    assert forall j | 19 <= j < 20 :: PositionClass(j) == VariantDigit;
    ClassesFromStep(Term(VariantDigit, 1), UuidV4Pattern[8..], 19);
    assert UuidV4Pattern[6..] == [Term(Literal('-'), 1)] + UuidV4Pattern[7..];
    assert forall j | 18 <= j < 19 :: PositionClass(j) == Literal('-');
    ClassesFromStep(Term(Literal('-'), 1), UuidV4Pattern[7..], 18);
    assert UuidV4Pattern[5..] == [Term(HexDigit, 3)] + UuidV4Pattern[6..];
    assert forall j | 15 <= j < 18 :: PositionClass(j) == HexDigit;
    ClassesFromStep(Term(HexDigit, 3), UuidV4Pattern[6..], 15);
    assert UuidV4Pattern[4..] == [Term(Literal('4'), 1)] + UuidV4Pattern[5..];
    assert forall j | 14 <= j < 15 :: PositionClass(j) == Literal('4');
    ClassesFromStep(Term(Literal('4'), 1), UuidV4Pattern[5..], 14);
  }

  /** The classes the pattern assigns to each of its 36 positions. */
  lemma ExpandUuidV4Pattern()
    ensures ClassesFrom(Expand(UuidV4Pattern[0..]), 0)
  {
    ExpandUuidV4PatternFrom4();
    assert UuidV4Pattern[3..] == [Term(Literal('-'), 1)] + UuidV4Pattern[4..];
    assert forall j | 13 <= j < 14 :: PositionClass(j) == Literal('-');
    ClassesFromStep(Term(Literal('-'), 1), UuidV4Pattern[4..], 13);
    assert UuidV4Pattern[2..] == [Term(HexDigit, 4)] + UuidV4Pattern[3..];
    assert forall j | 9 <= j < 13 :: PositionClass(j) == HexDigit;
    ClassesFromStep(Term(HexDigit, 4), UuidV4Pattern[3..], 9);
    assert UuidV4Pattern[1..] == [Term(Literal('-'), 1)] + UuidV4Pattern[2..];
    assert forall j | 8 <= j < 9 :: PositionClass(j) == Literal('-');
    ClassesFromStep(Term(Literal('-'), 1), UuidV4Pattern[2..], 8);
    assert UuidV4Pattern[0..] == [Term(HexDigit, 8)] + UuidV4Pattern[1..];
    assert forall j | 0 <= j < 8 :: PositionClass(j) == HexDigit;
    ClassesFromStep(Term(HexDigit, 8), UuidV4Pattern[1..], 0);
  }

  lemma ClassMembership(c: char)
    ensures InClass(HexDigit, c) <==> IsLowerHex(c)
    ensures InClass(VariantDigit, c) <==> c in {'8', '9', 'a', 'b'}
    ensures forall d :: InClass(Literal(d), c) <==> c == d
  {
    TwoRanges('a', 'f', '0', '9', c);
    TwoRanges('8', '9', 'a', 'b', c);
    forall d ensures InClass(Literal(d), c) <==> c == d {
      assert !InRanges(Literal(d).ranges[1..], c);
    }
  }

  lemma TwoRanges(lo0: char, hi0: char, lo1: char, hi1: char, c: char)
    ensures InRanges([(lo0, hi0), (lo1, hi1)], c) <==> lo0 <= c <= hi0 || lo1 <= c <= hi1
  {
    var rs := [(lo0, hi0), (lo1, hi1)];
    assert rs[1..] == [(lo1, hi1)];
    assert rs[1..][1..] == [];
    assert InRanges(rs[1..], c) <==> lo1 <= c <= hi1;
  }

  /** The regular expression of config/config.go:269 accepts exactly the
      names `IsUuidV4Name` describes: upper-case hex digits and any text
      before or after the 36 characters are rejected. */
  lemma UuidV4PatternAcceptsExactly(s: string)
    ensures MatchString(UuidV4Pattern, s) <==> IsUuidV4Name(s)
  {
    MatchStringPositionwise(UuidV4Pattern, s);
    ExpandUuidV4Pattern();
    assert UuidV4Pattern[0..] == UuidV4Pattern;
    if |s| == 36 {
      forall i | 0 <= i < 36
        ensures InClass(PositionClass(i), s[i]) <==>
          (if IsDashPosition(i) then s[i] == '-'
           else if i == 14 then s[i] == '4'
           else if i == 19 then s[i] in {'8', '9', 'a', 'b'}
           else IsLowerHex(s[i]))
      {
        ClassMembership(s[i]);
      }
    }
  }

  /** Because the pattern is anchored and lower-case, an accepted name has no
      text before or after its 36 characters and no upper-case letter. */
  lemma AcceptedNamesAreExact(s: string)
    requires MatchString(UuidV4Pattern, s)
    ensures |s| == 36
    ensures forall i | 0 <= i < |s| :: !('A' <= s[i] <= 'Z')
    ensures forall t | t != [] :: !MatchString(UuidV4Pattern, t + s) && !MatchString(UuidV4Pattern, s + t)
  {
    UuidV4PatternAcceptsExactly(s);
    forall t | t != [] ensures !MatchString(UuidV4Pattern, t + s) && !MatchString(UuidV4Pattern, s + t) {
      UuidV4PatternAcceptsExactly(t + s);
      UuidV4PatternAcceptsExactly(s + t);
    }
  }
}
