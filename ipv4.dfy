/**
 * The dotted-quad validator `isValidIPv4` of the lookup form: the regular
 * expression `^(\d{1,3}\.){3}\d{1,3}$`, then `split('.')` and a range check
 * of `parseInt(part, 10)` on every part.
 */
module Ipv4 {
  import opened Text

  /** `\d{1,3}` */
  predicate IsDigitGroup(g: string) { 1 <= |g| <= 3 && AllDigits(g) }

  /** A group whose decimal value lies in 0..255. */
  predicate IsOctet(g: string) { IsDigitGroup(g) && DecimalValue(g) <= 255 }

  /** `ipv4Regex.test(s)`, recognised through the fields between the dots. */
  predicate HasDottedQuadShape(s: string)
  {
    var parts := Split(s, '.');
    |parts| == 4 && forall i :: 0 <= i < 4 ==> IsDigitGroup(parts[i])
  }

  /** `isValidIPv4`: the shape test, then every part's value at most 255. */
  predicate IsValidIPv4(s: string)
  {
    if !HasDottedQuadShape(s) then false
    else
      var parts := Split(s, '.');
      forall i :: 0 <= i < |parts| ==> 0 <= DecimalValue(parts[i]) <= 255
  }

  /** The language of `(\d{1,3}\.){3}\d{1,3}`, read off the expression. */
  ghost predicate MatchesShapeRegex(s: string)
  {
    exists groups: seq<string>, last: string ::
      |groups| == 3 && (forall i :: 0 <= i < 3 ==> IsDigitGroup(groups[i])) &&
      IsDigitGroup(last) && s == Suffixed(groups, '.') + last
  }

  /** Four groups of one to three digits, each at most 255, with dots between. */
  ghost predicate IsDottedQuad(s: string)
  {
    exists a: string, b: string, c: string, d: string ::
      IsOctet(a) && IsOctet(b) && IsOctet(c) && IsOctet(d) &&
      s == a + "." + b + "." + c + "." + d
  }

  lemma DigitGroupHasNoDot(g: string)
    requires IsDigitGroup(g)
    ensures '.' !in g && ':' !in g
  {
  }

  /** The part-wise shape test accepts exactly the language of the regex. */
  lemma ShapeMatchesRegex(s: string)
    ensures HasDottedQuadShape(s) <==> MatchesShapeRegex(s)
  {
    if HasDottedQuadShape(s) {
      var parts := Split(s, '.');
      JoinSplit(s, '.');
      assert parts == parts[..3] + [parts[3]];
      SuffixedThenJoin(parts[..3], [parts[3]], '.');
      assert s == Suffixed(parts[..3], '.') + parts[3];
    }
    if MatchesShapeRegex(s) {
      var groups, last :| |groups| == 3 && (forall i :: 0 <= i < 3 ==> IsDigitGroup(groups[i])) &&
        IsDigitGroup(last) && s == Suffixed(groups, '.') + last;
      var parts := groups + [last];
      SuffixedThenJoin(groups, [last], '.');
      forall i | 0 <= i < 4 ensures IsDigitGroup(parts[i]) && '.' !in parts[i] {
        DigitGroupHasNoDot(parts[i]);
      }
      FieldsOf(s, parts, '.');
    }
  }

  /**
   * `isValidIPv4(s)` holds exactly when `s` is four dot-separated groups of
   * one to three ASCII digits, each of decimal value at most 255 (leading
   * zeros allowed).
   */
  lemma IsValidIPv4Iff(s: string)
    ensures IsValidIPv4(s) <==> IsDottedQuad(s)
  {
    if IsValidIPv4(s) {
      var p := Split(s, '.');
      JoinSplit(s, '.');
      assert p == [p[0], p[1], p[2], p[3]];
      Join4(p[0], p[1], p[2], p[3], '.');
      assert IsOctet(p[0]) && IsOctet(p[1]) && IsOctet(p[2]) && IsOctet(p[3]);
    }
    if IsDottedQuad(s) {
      var a, b, c, d :| IsOctet(a) && IsOctet(b) && IsOctet(c) && IsOctet(d) &&
        s == a + "." + b + "." + c + "." + d;
      var p := [a, b, c, d];
      Join4(a, b, c, d, '.');
      forall i | 0 <= i < 4 ensures '.' !in p[i] { DigitGroupHasNoDot(p[i]); }
      FieldsOf(s, p, '.');
      assert forall i :: 0 <= i < 4 ==> IsOctet(p[i]);
    }
  }

  /** A valid dotted quad holds only digits and dots; in particular no colon. */
  lemma ValidHasOnlyDigitsAndDots(s: string)
    requires IsValidIPv4(s)
    ensures ':' !in s && '%' !in s
    ensures forall i :: 0 <= i < |s| ==> IsDigit(s[i]) || s[i] == '.'
  {
    var p := Split(s, '.');
    JoinSplit(s, '.');
    forall i | 0 <= i < |s| ensures IsDigit(s[i]) || s[i] == '.' {
      if !IsDigit(s[i]) && s[i] != '.' {
        assert NoneContains(p, s[i]);
        JoinExcludes(p, '.', s[i]);
      }
    }
  }

  /** Leading zeros pass: "010.0.0.1" is accepted. */
  lemma AcceptsLeadingZeros()
    ensures IsValidIPv4("010.0.0.1")
  {
    DecimalValue3("010");
    DecimalValue1("0");
    DecimalValue1("1");
    assert IsOctet("010") && IsOctet("0") && IsOctet("1");
    assert "010.0.0.1" == "010" + "." + "0" + "." + "0" + "." + "1";
    IsValidIPv4Iff("010.0.0.1");
  }

  /** A group above 255 fails the range check: "256.1.1.1" is rejected. */
  lemma RejectsOctetAbove255()
    ensures !IsValidIPv4("256.1.1.1")
  {
    var p := ["256", "1", "1", "1"];
    Join4("256", "1", "1", "1", '.');
    assert "256.1.1.1" == "256" + "." + "1" + "." + "1" + "." + "1";
    forall i | 0 <= i < 4 ensures '.' !in p[i] {
      assert IsDigitGroup(p[i]);
      DigitGroupHasNoDot(p[i]);
    }
    FieldsOf("256.1.1.1", p, '.');
    DecimalValue3("256");
  }

  /** Three groups fail the shape test: "1.2.3" is rejected. */
  lemma RejectsThreeGroups()
    ensures !IsValidIPv4("1.2.3")
  {
    var p := ["1", "2", "3"];
    assert p[1..] == ["2", "3"] && ["2", "3"][1..] == ["3"];
    assert Join(p, '.') == "1.2.3";
    forall i | 0 <= i < 3 ensures '.' !in p[i] {
      assert IsDigitGroup(p[i]);
      DigitGroupHasNoDot(p[i]);
    }
    FieldsOf("1.2.3", p, '.');
  }
}
