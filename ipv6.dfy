/**
 * The colon-hex validator `isValidIPv6` of the lookup form: one anchored
 * regular expression with twelve alternatives. `IsValidIPv6` recognises the
 * string through its `:`-separated fields; `MatchesIpv6Regex` is the language
 * of the expression read off alternative by alternative, and
 * `IsValidIPv6MatchesRegex` proves the two equal.
 */
module Ipv6 {
  import opened Text
  import Ipv4

  // ---------------------------------------------------------------------------
  // Building blocks of the expression

  /** `[a-fA-F\d]{1,4}` */
  predicate IsHexGroup(g: string) { 1 <= |g| <= 4 && AllHex(g) }

  /** `[a-fA-F\d]{0,4}`, the groups of the link-local alternative. */
  predicate IsShortHexRun(g: string) { |g| <= 4 && AllHex(g) }

  predicate AllHexGroups(gs: seq<string>) { forall i :: 0 <= i < |gs| ==> IsHexGroup(gs[i]) }

  predicate AllShortHexRuns(gs: seq<string>) { forall i :: 0 <= i < |gs| ==> IsShortHexRun(gs[i]) }

  /** `0{1,4}` */
  predicate IsZeroRun(z: string) { 1 <= |z| <= 4 && forall i :: 0 <= i < |z| ==> z[i] == '0' }

  /** `[0-9a-zA-Z]{1,}`, the zone index after `%`. */
  predicate IsZoneId(z: string) { |z| >= 1 && AllAlnum(z) }

  /**
   * `25[0-5]|(?:2[0-4]|1{0,1}[0-9]){0,1}[0-9]`, one case per way the
   * expression can match.
   */
  predicate IsEmbeddedOctet(o: string)
  {
    (|o| == 3 && o[0] == '2' && o[1] == '5' && '0' <= o[2] <= '5') ||
    (|o| == 1 && IsDigit(o[0])) ||
    (|o| == 2 && IsDigit(o[0]) && IsDigit(o[1])) ||
    (|o| == 3 && o[0] == '1' && IsDigit(o[1]) && IsDigit(o[2])) ||
    (|o| == 3 && o[0] == '2' && '0' <= o[1] <= '4' && IsDigit(o[2]))
  }

  /** `(?:Octet\.){3,3}Octet`, recognised through the fields between the dots. */
  predicate IsEmbeddedQuad(q: string)
  {
    var parts := Split(q, '.');
    |parts| == 4 && forall i :: 0 <= i < 4 ==> IsEmbeddedOctet(parts[i])
  }

  // ---------------------------------------------------------------------------
  // The recogniser: the alternatives in terms of the `:`-separated fields

  /** `(?:H:){7}H` */
  predicate IsFullForm(f: seq<string>) { |f| == 8 && AllHexGroups(f) }

  /** `(?:H:){1,7}:` */
  predicate IsTrailingCompressed(f: seq<string>)
  {
    3 <= |f| <= 9 && AllHexGroups(f[..|f| - 2]) && f[|f| - 2] == "" && f[|f| - 1] == ""
  }

  /** The six alternatives `(?:H:){a}(?::H){b}`: together, a, b >= 1 and a + b <= 7. */
  predicate IsInnerCompressed(f: seq<string>)
  {
    |f| <= 8 &&
    exists i :: 1 <= i < |f| - 1 && f[i] == "" && AllHexGroups(f[..i]) && AllHexGroups(f[i + 1..])
  }

  /** `:(?:(?::H){1,7}|:)` */
  predicate IsLeadingCompressed(f: seq<string>)
  {
    f == ["", "", ""] || (3 <= |f| <= 9 && f[0] == "" && f[1] == "" && AllHexGroups(f[2..]))
  }

  /** `::(?:ffff(?::0{1,4}){0,1}:){0,1}` followed by a dotted quad */
  predicate IsMappedIpv4(f: seq<string>)
  {
    3 <= |f| <= 5 && f[0] == "" && f[1] == "" && IsEmbeddedQuad(f[|f| - 1]) &&
    (|f| >= 4 ==> f[2] == "ffff") && (|f| == 5 ==> IsZeroRun(f[3]))
  }

  /** `(?:H:){1,4}:` followed by a dotted quad */
  predicate IsCompressedIpv4(f: seq<string>)
  {
    3 <= |f| <= 6 && AllHexGroups(f[..|f| - 2]) && f[|f| - 2] == "" && IsEmbeddedQuad(f[|f| - 1])
  }

  /** The groups `(?::[a-fA-F\d]{0,4}){0,4}` between `fe80:` and `%`. */
  predicate IsZoneGaps(t: string)
  {
    t == [] || (t[0] == ':' && var g := Split(t[1..], ':'); |g| <= 4 && AllShortHexRuns(g))
  }

  /** `fe80:(?::[a-fA-F\d]{0,4}){0,4}%[0-9a-zA-Z]{1,}`, on the string itself. */
  predicate IsLinkLocalWithZone(s: string)
  {
    5 < |s| && s[..5] == "fe80:" &&
    exists p :: 5 <= p < |s| && s[p] == '%' && IsZoneGaps(s[5..p]) && IsZoneId(s[p + 1..])
  }

  /** `isValidIPv6`: one of the alternatives matches the whole string. */
  predicate IsValidIPv6(s: string)
  {
    var f := Split(s, ':');
    IsFullForm(f) || IsTrailingCompressed(f) || IsInnerCompressed(f) || IsLeadingCompressed(f) ||
    IsLinkLocalWithZone(s) || IsMappedIpv4(f) || IsCompressedIpv4(f)
  }

  // ---------------------------------------------------------------------------
  // The language of the expression, alternative by alternative

  /** `(?:Octet\.){3,3}Octet` */
  ghost predicate RegexQuad(q: string)
  {
    exists os: seq<string>, last: string ::
      |os| == 3 && (forall i :: 0 <= i < 3 ==> IsEmbeddedOctet(os[i])) &&
      IsEmbeddedOctet(last) && q == Suffixed(os, '.') + last
  }

  /** `(?:H:){7}H` */
  ghost predicate RegexFull(s: string)
  {
    exists gs: seq<string>, h: string ::
      |gs| == 7 && AllHexGroups(gs) && IsHexGroup(h) && s == Suffixed(gs, ':') + h
  }

  /** `(?:H:){1,7}:` */
  ghost predicate RegexTrailing(s: string)
  {
    exists gs: seq<string> :: 1 <= |gs| <= 7 && AllHexGroups(gs) && s == Suffixed(gs, ':') + ":"
  }

  /** `(?:H:){1,maxLeft}(?::H){1,maxRight}` */
  ghost predicate RegexRun(s: string, maxLeft: nat, maxRight: nat)
  {
    exists l: seq<string>, r: seq<string> ::
      1 <= |l| <= maxLeft && 1 <= |r| <= maxRight && AllHexGroups(l) && AllHexGroups(r) &&
      s == Suffixed(l, ':') + Prefixed(r, ':')
  }

  /** `:(?:(?::H){1,7}|:)` */
  ghost predicate RegexLeading(s: string)
  {
    s == "::" ||
    exists r: seq<string> :: 1 <= |r| <= 7 && AllHexGroups(r) && s == ":" + Prefixed(r, ':')
  }

  /** `fe80:(?::[a-fA-F\d]{0,4}){0,4}%[0-9a-zA-Z]{1,}` */
  ghost predicate RegexZone(s: string)
  {
    exists xs: seq<string>, z: string ::
      |xs| <= 4 && AllShortHexRuns(xs) && IsZoneId(z) && s == "fe80:" + Prefixed(xs, ':') + "%" + z
  }

  /** `(?:ffff(?::0{1,4}){0,1}:){0,1}`: nothing, `ffff:` or `ffff:` zeros `:`. */
  ghost predicate RegexMappedPrefix(p: string)
  {
    p == "" || p == "ffff:" || exists z :: IsZeroRun(z) && p == "ffff:" + z + ":"
  }

  /** `::(?:ffff(?::0{1,4}){0,1}:){0,1}` then a dotted quad */
  ghost predicate RegexMapped(s: string)
  {
    exists p: string, q: string :: RegexMappedPrefix(p) && RegexQuad(q) && s == "::" + p + q
  }

  /** `(?:H:){1,4}:` then a dotted quad */
  ghost predicate RegexCompressedIpv4(s: string)
  {
    exists l: seq<string>, q: string ::
      1 <= |l| <= 4 && AllHexGroups(l) && RegexQuad(q) && s == Suffixed(l, ':') + ":" + q
  }

  /** The whole expression, its alternatives in their order. */
  ghost predicate MatchesIpv6Regex(s: string)
  {
    RegexFull(s) || RegexTrailing(s) ||
    RegexRun(s, 6, 1) || RegexRun(s, 5, 2) || RegexRun(s, 4, 3) ||
    RegexRun(s, 3, 4) || RegexRun(s, 2, 5) || RegexRun(s, 1, 6) ||
    RegexLeading(s) || RegexZone(s) || RegexMapped(s) || RegexCompressedIpv4(s)
  }

  // ---------------------------------------------------------------------------
  // Character facts

  lemma HexGroupsExclude(gs: seq<string>)
    requires AllShortHexRuns(gs)
    ensures NoneContains(gs, ':') && NoneContains(gs, '.') && NoneContains(gs, '%')
  {
  }

  lemma HexGroupsAreShort(gs: seq<string>)
    requires AllHexGroups(gs)
    ensures AllShortHexRuns(gs)
  {
  }

  lemma OctetFacts(o: string)
    requires IsEmbeddedOctet(o)
    ensures Ipv4.IsDigitGroup(o) && '.' !in o && ':' !in o && '%' !in o
  {
  }

  /** An embedded quad holds digits and dots only. */
  lemma QuadExcludes(q: string)
    requires IsEmbeddedQuad(q)
    ensures ':' !in q && '%' !in q
  {
    var parts := Split(q, '.');
    forall i | 0 <= i < 4 ensures ':' !in parts[i] && '%' !in parts[i] { OctetFacts(parts[i]); }
    FieldsExclude(q, '.', ':');
    FieldsExclude(q, '.', '%');
  }

  lemma QuadHasDot(q: string)
    requires IsEmbeddedQuad(q)
    ensures '.' in q
  {
    SeveralFieldsHaveSeparator(q, '.');
  }

  // ---------------------------------------------------------------------------
  // Each part of the recogniser against its alternative

  /** The dotted quad of the embedded-IPv4 alternatives. */
  lemma QuadMatchesRegex(q: string)
    ensures IsEmbeddedQuad(q) <==> RegexQuad(q)
  {
    if IsEmbeddedQuad(q) {
      var parts := Split(q, '.');
      JoinSplit(q, '.');
      assert parts == parts[..3] + [parts[3]];
      SuffixedThenJoin(parts[..3], [parts[3]], '.');
      assert q == Suffixed(parts[..3], '.') + parts[3];
    }
    if RegexQuad(q) {
      var os, last :| |os| == 3 && (forall i :: 0 <= i < 3 ==> IsEmbeddedOctet(os[i])) &&
        IsEmbeddedOctet(last) && q == Suffixed(os, '.') + last;
      var parts := os + [last];
      SuffixedThenJoin(os, [last], '.');
      forall i | 0 <= i < 4 ensures IsEmbeddedOctet(parts[i]) && '.' !in parts[i] {
        OctetFacts(parts[i]);
      }
      FieldsOf(q, parts, '.');
    }
  }

  lemma FullFormMatchesRegex(s: string)
    ensures IsFullForm(Split(s, ':')) <==> RegexFull(s)
  {
    var f := Split(s, ':');
    if IsFullForm(f) {
      JoinSplit(s, ':');
      assert f == f[..7] + [f[7]];
      SuffixedThenJoin(f[..7], [f[7]], ':');
      assert AllHexGroups(f[..7]);
      assert s == Suffixed(f[..7], ':') + f[7];
    }
    if RegexFull(s) {
      var gs, h :| |gs| == 7 && AllHexGroups(gs) && IsHexGroup(h) && s == Suffixed(gs, ':') + h;
      var fs := gs + [h];
      SuffixedThenJoin(gs, [h], ':');
      assert AllHexGroups(fs);
      HexGroupsExclude(fs);
      FieldsOf(s, fs, ':');
    }
  }

  lemma TrailingMatchesRegex(s: string)
    ensures IsTrailingCompressed(Split(s, ':')) <==> RegexTrailing(s)
  {
    if IsTrailingCompressed(Split(s, ':')) { TrailingFieldsGiveRegex(s); }
    if RegexTrailing(s) { TrailingRegexGivesFields(s); }
  }

  lemma TrailingFieldsGiveRegex(s: string)
    requires IsTrailingCompressed(Split(s, ':'))
    ensures RegexTrailing(s)
  {
    var f := Split(s, ':');
    var gs := f[..|f| - 2];
    assert Join(["", ""], ':') == ":";
    JoinSplit(s, ':');
    LastTwoFields(f);
    SuffixedThenJoin(gs, ["", ""], ':');
    TrailingWitness(s, gs);
  }

  lemma TrailingWitness(s: string, gs: seq<string>)
    requires 1 <= |gs| <= 7 && AllHexGroups(gs) && s == Suffixed(gs, ':') + Join(["", ""], ':')
    requires Join(["", ""], ':') == ":"
    ensures RegexTrailing(s)
  {
  }

  lemma TrailingRegexGivesFields(s: string)
    requires RegexTrailing(s)
    ensures IsTrailingCompressed(Split(s, ':'))
  {
    var gs :| 1 <= |gs| <= 7 && AllHexGroups(gs) && s == Suffixed(gs, ':') + ":";
    var fs := gs + ["", ""];
    assert Join(["", ""], ':') == ":";
    SuffixedThenJoin(gs, ["", ""], ':');
    HexGroupsExclude(gs);
    assert NoneContains(fs, ':');
    FieldsOf(s, fs, ':');
    assert fs[..|fs| - 2] == gs;
    assert IsTrailingCompressed(fs);
  }

  /** `(?::H){n}` is the fields `""`, then the groups, joined. */
  lemma PrefixedAsFields(r: seq<string>, sep: char)
    requires |r| >= 1
    ensures Prefixed(r, sep) == Join([""] + r, sep)
  {
    PrefixedIsJoin(r, sep);
    JoinAppend([""], r, sep);
  }

  /** The fields of `(?:H:){a}(?::H){b}`: the left groups, an empty field, the right groups. */
  lemma RunFields(l: seq<string>, r: seq<string>)
    requires |l| >= 1 && |r| >= 1
    ensures Join(l + ([""] + r), ':') == Suffixed(l, ':') + Prefixed(r, ':')
  {
    PrefixedAsFields(r, ':');
    SuffixedThenJoin(l, [""] + r, ':');
  }

  /** The fields of `:(?::H){n}`: two empty fields, then the groups. */
  lemma LeadingFields(r: seq<string>)
    requires |r| >= 1
    ensures Join(["", ""] + r, ':') == ":" + Prefixed(r, ':')
  {
    assert Join(["", ""], ':') == ":";
    JoinAppend(["", ""], r, ':');
    PrefixedIsJoin(r, ':');
  }

  /** The fields of `(?:H:){n}:q`: the groups, an empty field, then `q`. */
  lemma CompressedQuadFields(l: seq<string>, q: string)
    requires |l| >= 1
    ensures Join(l + ["", q], ':') == Suffixed(l, ':') + ":" + q
  {
    assert ["", q][1..] == [q];
    SuffixedThenJoin(l, ["", q], ':');
  }

  /** Any one of the six run alternatives gives an inner compressed field list. */
  lemma RunGivesInnerFields(s: string, maxLeft: nat, maxRight: nat)
    requires maxLeft + maxRight <= 7 && RegexRun(s, maxLeft, maxRight)
    ensures IsInnerCompressed(Split(s, ':'))
  {
    var l, r :| 1 <= |l| <= maxLeft && 1 <= |r| <= maxRight && AllHexGroups(l) && AllHexGroups(r) &&
      s == Suffixed(l, ':') + Prefixed(r, ':');
    var fs := l + ([""] + r);
    RunFields(l, r);
    HexGroupsExclude(l);
    HexGroupsExclude(r);
    assert NoneContains(fs, ':');
    FieldsOf(s, fs, ':');
    InnerWitness(fs, l, r);
  }

  lemma InnerWitness(fs: seq<string>, l: seq<string>, r: seq<string>)
    requires fs == l + ([""] + r) && 1 <= |l| && 1 <= |r| && |l| + |r| <= 7
    requires AllHexGroups(l) && AllHexGroups(r)
    ensures IsInnerCompressed(fs)
  {
    var i := |l|;
    assert fs[..i] == l && fs[i + 1..] == r && fs[i] == "";
  }

  /** An inner compressed field list with `a` groups before the gap matches run `a`. */
  lemma InnerFieldsGiveRun(s: string) returns (a: nat)
    requires IsInnerCompressed(Split(s, ':'))
    ensures 1 <= a <= 6 && RegexRun(s, a, 7 - a)
  {
    var f := Split(s, ':');
    var i :| 1 <= i < |f| - 1 && f[i] == "" && AllHexGroups(f[..i]) && AllHexGroups(f[i + 1..]);
    var l, r := f[..i], f[i + 1..];
    FieldsAround(f, i);
    JoinSplit(s, ':');
    RunFields(l, r);
    a := i;
    RunWitness(s, a, 7 - a, l, r);
  }

  lemma RunWitness(s: string, maxLeft: nat, maxRight: nat, l: seq<string>, r: seq<string>)
    requires 1 <= |l| <= maxLeft && 1 <= |r| <= maxRight && AllHexGroups(l) && AllHexGroups(r)
    requires s == Suffixed(l, ':') + Prefixed(r, ':')
    ensures RegexRun(s, maxLeft, maxRight)
  {
  }

  lemma InnerMatchesRegex(s: string)
    ensures IsInnerCompressed(Split(s, ':')) <==>
      RegexRun(s, 6, 1) || RegexRun(s, 5, 2) || RegexRun(s, 4, 3) ||
      RegexRun(s, 3, 4) || RegexRun(s, 2, 5) || RegexRun(s, 1, 6)
  {
    if IsInnerCompressed(Split(s, ':')) {
      var a := InnerFieldsGiveRun(s);
      assert a == 6 || a == 5 || a == 4 || a == 3 || a == 2 || a == 1;
    }
    if RegexRun(s, 6, 1) { RunGivesInnerFields(s, 6, 1); }
    if RegexRun(s, 5, 2) { RunGivesInnerFields(s, 5, 2); }
    if RegexRun(s, 4, 3) { RunGivesInnerFields(s, 4, 3); }
    if RegexRun(s, 3, 4) { RunGivesInnerFields(s, 3, 4); }
    if RegexRun(s, 2, 5) { RunGivesInnerFields(s, 2, 5); }
    if RegexRun(s, 1, 6) { RunGivesInnerFields(s, 1, 6); }
  }

  lemma LeadingMatchesRegex(s: string)
    ensures IsLeadingCompressed(Split(s, ':')) <==> RegexLeading(s)
  {
    if IsLeadingCompressed(Split(s, ':')) { LeadingFieldsGiveRegex(s); }
    if RegexLeading(s) { LeadingRegexGivesFields(s); }
  }

  lemma LeadingFieldsGiveRegex(s: string)
    requires IsLeadingCompressed(Split(s, ':'))
    ensures RegexLeading(s)
  {
    var f := Split(s, ':');
    JoinSplit(s, ':');
    if f == ["", "", ""] {
      Join3("", "", "", ':');
    } else {
      var r := f[2..];
      assert f == ["", ""] + r;
      LeadingFields(r);
      assert s == ":" + Prefixed(r, ':');
    }
  }

  lemma LeadingRegexGivesFields(s: string)
    requires RegexLeading(s)
    ensures IsLeadingCompressed(Split(s, ':'))
  {
    if s == "::" {
      Join3("", "", "", ':');
      FieldsOf(s, ["", "", ""], ':');
    } else {
      var r :| 1 <= |r| <= 7 && AllHexGroups(r) && s == ":" + Prefixed(r, ':');
      var fs := ["", ""] + r;
      LeadingFields(r);
      HexGroupsExclude(r);
      assert NoneContains(fs, ':');
      FieldsOf(s, fs, ':');
      assert fs[2..] == r;
    }
  }

  /** The groups between `fe80:` and `%` are exactly `(?::[a-fA-F\d]{0,4}){0,4}`. */
  lemma ZoneGapsMatchRegex(t: string)
    ensures IsZoneGaps(t) <==> exists xs: seq<string> :: |xs| <= 4 && AllShortHexRuns(xs) && t == Prefixed(xs, ':')
  {
    if IsZoneGaps(t) {
      if t == [] {
        assert Prefixed([], ':') == t;
      } else {
        var g := Split(t[1..], ':');
        JoinSplit(t[1..], ':');
        PrefixedIsJoin(g, ':');
        assert t == [t[0]] + t[1..];
        assert t == Prefixed(g, ':');
      }
    }
    if exists xs: seq<string> :: |xs| <= 4 && AllShortHexRuns(xs) && t == Prefixed(xs, ':') {
      var xs :| |xs| <= 4 && AllShortHexRuns(xs) && t == Prefixed(xs, ':');
      if xs != [] {
        PrefixedIsJoin(xs, ':');
        assert t[1..] == Join(xs, ':');
        HexGroupsExclude(xs);
        SplitJoin(xs, ':');
      }
    }
  }

  lemma ZoneMatchesRegex(s: string)
    ensures IsLinkLocalWithZone(s) <==> RegexZone(s)
  {
    if IsLinkLocalWithZone(s) { ZoneFormGivesRegex(s); }
    if RegexZone(s) { ZoneRegexGivesForm(s); }
  }

  lemma ZoneFormGivesRegex(s: string)
    requires IsLinkLocalWithZone(s)
    ensures RegexZone(s)
  {
    var p :| 5 <= p < |s| && s[p] == '%' && IsZoneGaps(s[5..p]) && IsZoneId(s[p + 1..]);
    var t, z := s[5..p], s[p + 1..];
    CutAround(s, 5, p);
    ZoneGapsMatchRegex(t);
    var xs :| |xs| <= 4 && AllShortHexRuns(xs) && t == Prefixed(xs, ':');
    ZoneWitness(s, xs, z);
  }

  lemma ZoneWitness(s: string, xs: seq<string>, z: string)
    requires |xs| <= 4 && AllShortHexRuns(xs) && IsZoneId(z)
    requires s == "fe80:" + Prefixed(xs, ':') + "%" + z
    ensures RegexZone(s)
  {
  }

  lemma ZoneRegexGivesForm(s: string)
    requires RegexZone(s)
    ensures IsLinkLocalWithZone(s)
  {
    var xs, z :| |xs| <= 4 && AllShortHexRuns(xs) && IsZoneId(z) &&
      s == "fe80:" + Prefixed(xs, ':') + "%" + z;
    var t := Prefixed(xs, ':');
    var p := 5 + |t|;
    PiecesOf(s, "fe80:", t, '%', z);
    ZoneGapsMatchRegex(t);
    ZoneFormWitness(s, p);
  }

  lemma ZoneFormWitness(s: string, p: nat)
    requires 5 < |s| && s[..5] == "fe80:"
    requires 5 <= p < |s| && s[p] == '%' && IsZoneGaps(s[5..p]) && IsZoneId(s[p + 1..])
    ensures IsLinkLocalWithZone(s)
  {
  }

  lemma MappedMatchesRegex(s: string)
    ensures IsMappedIpv4(Split(s, ':')) <==> RegexMapped(s)
  {
    if IsMappedIpv4(Split(s, ':')) { MappedFieldsGiveRegex(s); }
    if RegexMapped(s) { MappedRegexGivesFields(s); }
  }

  lemma MappedFieldsGiveRegex(s: string)
    requires IsMappedIpv4(Split(s, ':'))
    ensures RegexMapped(s)
  {
    var f := Split(s, ':');
    var q := f[|f| - 1];
    QuadMatchesRegex(q);
    JoinSplit(s, ':');
    var p := MappedPrefixOf(f);
    MappedWitness(s, p, q);
  }

  /** The text before the dotted quad of a mapped field list. */
  lemma MappedPrefixOf(f: seq<string>) returns (p: string)
    requires IsMappedIpv4(f)
    ensures RegexMappedPrefix(p) && Join(f, ':') == "::" + p + f[|f| - 1]
  {
    var q := f[|f| - 1];
    if |f| == 3 {
      assert f == ["", "", q];
      Join3("", "", q, ':');
      p := "";
    } else if |f| == 4 {
      assert f == ["", "", "ffff", q];
      Join4("", "", "ffff", q, ':');
      p := "ffff:";
    } else {
      var z := f[3];
      assert f == ["", "", "ffff", z, q];
      Join5("", "", "ffff", z, q, ':');
      p := "ffff:" + z + ":";
    }
  }

  lemma MappedWitness(s: string, p: string, q: string)
    requires RegexMappedPrefix(p) && RegexQuad(q) && s == "::" + p + q
    ensures RegexMapped(s)
  {
  }

  lemma MappedRegexGivesFields(s: string)
    requires RegexMapped(s)
    ensures IsMappedIpv4(Split(s, ':'))
  {
    var p, q :| RegexMappedPrefix(p) && RegexQuad(q) && s == "::" + p + q;
    QuadMatchesRegex(q);
    if p == "" {
      MappedBareGivesFields(q);
    } else if p == "ffff:" {
      MappedFfffGivesFields(q);
    } else {
      var z :| IsZeroRun(z) && p == "ffff:" + z + ":";
      MappedZerosGiveFields(z, q);
    }
  }

  lemma MappedBareGivesFields(q: string)
    requires IsEmbeddedQuad(q)
    ensures IsMappedIpv4(Split("::" + "" + q, ':'))
  {
    Join3("", "", q, ':');
    MappedFieldsOf("::" + "" + q, ["", "", q]);
  }

  lemma MappedFfffGivesFields(q: string)
    requires IsEmbeddedQuad(q)
    ensures IsMappedIpv4(Split("::" + "ffff:" + q, ':'))
  {
    Join4("", "", "ffff", q, ':');
    MappedFieldsOf("::" + "ffff:" + q, ["", "", "ffff", q]);
  }

  lemma MappedZerosGiveFields(z: string, q: string)
    requires IsZeroRun(z) && IsEmbeddedQuad(q)
    ensures IsMappedIpv4(Split("::" + ("ffff:" + z + ":") + q, ':'))
  {
    var s := "::" + ("ffff:" + z + ":") + q;
    Join5("", "", "ffff", z, q, ':');
    assert s == Join(["", "", "ffff", z, q], ':');
    MappedFieldsOf(s, ["", "", "ffff", z, q]);
  }

  lemma MappedFieldsOf(s: string, fs: seq<string>)
    requires IsMappedIpv4(fs) && s == Join(fs, ':')
    ensures IsMappedIpv4(Split(s, ':'))
  {
    QuadExcludes(fs[|fs| - 1]);
    assert NoneContains(fs, ':');
    FieldsOf(s, fs, ':');
  }

  lemma CompressedIpv4MatchesRegex(s: string)
    ensures IsCompressedIpv4(Split(s, ':')) <==> RegexCompressedIpv4(s)
  {
    if IsCompressedIpv4(Split(s, ':')) { CompressedIpv4FieldsGiveRegex(s); }
    if RegexCompressedIpv4(s) { CompressedIpv4RegexGivesFields(s); }
  }

  lemma CompressedIpv4FieldsGiveRegex(s: string)
    requires IsCompressedIpv4(Split(s, ':'))
    ensures RegexCompressedIpv4(s)
  {
    var f := Split(s, ':');
    var l, q := f[..|f| - 2], f[|f| - 1];
    QuadMatchesRegex(q);
    JoinSplit(s, ':');
    assert f == l + ["", q];
    CompressedQuadFields(l, q);
  }

  lemma CompressedIpv4RegexGivesFields(s: string)
    requires RegexCompressedIpv4(s)
    ensures IsCompressedIpv4(Split(s, ':'))
  {
    var l, q :| 1 <= |l| <= 4 && AllHexGroups(l) && RegexQuad(q) && s == Suffixed(l, ':') + ":" + q;
    QuadMatchesRegex(q);
    QuadExcludes(q);
    var fs := l + ["", q];
    CompressedQuadFields(l, q);
    HexGroupsExclude(l);
    assert NoneContains(fs, ':');
    FieldsOf(s, fs, ':');
    assert fs[..|fs| - 2] == l;
  }

  /**
   * The field-based recogniser accepts exactly the strings the anchored
   * expression of `isValidIPv6` matches.
   */
  lemma IsValidIPv6MatchesRegex(s: string)
    ensures IsValidIPv6(s) <==> MatchesIpv6Regex(s)
  {
    FullFormMatchesRegex(s);
    TrailingMatchesRegex(s);
    InnerMatchesRegex(s);
    LeadingMatchesRegex(s);
    ZoneMatchesRegex(s);
    MappedMatchesRegex(s);
    CompressedIpv4MatchesRegex(s);
  }

  // ---------------------------------------------------------------------------
  // What an accepted string looks like

  /**
   * Every field is at most four hex digits (possibly none), except that the
   * last may instead be a dotted quad.
   */
  predicate GroupsThenTail(f: seq<string>)
  {
    |f| >= 3 &&
    (forall i :: 0 <= i < |f| - 1 ==> IsShortHexRun(f[i])) &&
    (IsShortHexRun(f[|f| - 1]) || IsEmbeddedQuad(f[|f| - 1]))
  }

  lemma FieldFormsAreGroups(f: seq<string>)
    requires IsFullForm(f) || IsTrailingCompressed(f) || IsInnerCompressed(f) ||
             IsLeadingCompressed(f) || IsMappedIpv4(f) || IsCompressedIpv4(f)
    ensures GroupsThenTail(f)
  {
    if IsTrailingCompressed(f) || IsCompressedIpv4(f) {
      forall i | 0 <= i < |f| - 2 ensures IsShortHexRun(f[i]) { assert f[..|f| - 2][i] == f[i]; }
    } else if IsInnerCompressed(f) {
      var k :| 1 <= k < |f| - 1 && f[k] == "" && AllHexGroups(f[..k]) && AllHexGroups(f[k + 1..]);
      forall i | 0 <= i < |f| ensures IsShortHexRun(f[i]) {
        if i < k { assert f[..k][i] == f[i]; }
        if i > k { assert f[k + 1..][i - k - 1] == f[i]; }
      }
    } else if IsLeadingCompressed(f) && f != ["", "", ""] {
      forall i | 2 <= i < |f| ensures IsShortHexRun(f[i]) { assert f[2..][i - 2] == f[i]; }
    }
  }

  lemma GroupsThenTailExcludesZone(f: seq<string>)
    requires GroupsThenTail(f)
    ensures NoneContains(f, '%')
  {
    if IsEmbeddedQuad(f[|f| - 1]) { QuadExcludes(f[|f| - 1]); }
  }

  lemma ZoneGapsHaveNoDot(t: string)
    requires IsZoneGaps(t)
    ensures '.' !in t
  {
    if t != [] {
      HexGroupsExclude(Split(t[1..], ':'));
      FieldsExclude(t[1..], ':', '.');
      assert t == [t[0]] + t[1..];
    }
  }

  lemma LinkLocalPrefixHasNoDot()
    ensures '.' !in "fe80:"
  {
  }

  /** The link-local form holds no dot. */
  lemma ZoneFormHasNoDot(s: string)
    requires IsLinkLocalWithZone(s)
    ensures '.' !in s
  {
    var p :| 5 <= p < |s| && s[p] == '%' && IsZoneGaps(s[5..p]) && IsZoneId(s[p + 1..]);
    var t, z := s[5..p], s[p + 1..];
    CutAround(s, 5, p);
    ZoneGapsHaveNoDot(t);
    LinkLocalPrefixHasNoDot();
    AlnumExcludes(z);
  }

  /** Every accepted string holds a colon. */
  lemma ValidIPv6HasColon(s: string)
    requires IsValidIPv6(s)
    ensures ':' in s
  {
    if IsLinkLocalWithZone(s) {
      assert s[4] == s[..5][4] == ':';
    } else {
      FieldFormsAreGroups(Split(s, ':'));
      SeveralFieldsHaveSeparator(s, ':');
    }
  }

  /** No string passes both `isValidIPv4` and `isValidIPv6`. */
  lemma NoAddressIsBoth(s: string)
    ensures !(Ipv4.IsValidIPv4(s) && IsValidIPv6(s))
  {
    if Ipv4.IsValidIPv4(s) && IsValidIPv6(s) {
      Ipv4.ValidHasOnlyDigitsAndDots(s);
      ValidIPv6HasColon(s);
    }
  }

  /**
   * Without a zone suffix, every `:`-separated group of an accepted string
   * is at most four hex digits, except that the last may be a dotted quad:
   * a group of five or more hex digits, or any other character, is rejected.
   */
  lemma GroupsAreShortHex(s: string)
    requires IsValidIPv6(s) && '%' !in s
    ensures var f := Split(s, ':');
      |f| >= 3 &&
      (forall i :: 0 <= i < |f| - 1 ==> |f[i]| <= 4 && AllHex(f[i])) &&
      ((|f[|f| - 1]| <= 4 && AllHex(f[|f| - 1])) || IsEmbeddedQuad(f[|f| - 1]))
  {
    assert !IsLinkLocalWithZone(s);
    FieldFormsAreGroups(Split(s, ':'));
  }

  /**
   * A `%` zone suffix is accepted only after the literal lower-case prefix
   * `fe80:`, and what follows the `%` is one or more ASCII letters or digits.
   */
  lemma ZoneOnlyAfterLinkLocal(s: string)
    requires IsValidIPv6(s) && '%' in s
    ensures |s| > 5 && s[..5] == "fe80:"
    ensures exists p :: 5 <= p < |s| && s[p] == '%' && IsZoneGaps(s[5..p]) && IsZoneId(s[p + 1..])
  {
    if !IsLinkLocalWithZone(s) {
      var f := Split(s, ':');
      FieldFormsAreGroups(f);
      GroupsThenTailExcludesZone(f);
      FieldsExclude(s, ':', '%');
      assert false;
    }
  }

  /** The octets the embedded-IPv4 alternatives admit: leading zeros only below 100. */
  lemma EmbeddedOctetIff(o: string)
    ensures IsEmbeddedOctet(o) <==> Ipv4.IsOctet(o) && (|o| == 3 ==> o[0] != '0')
  {
    if Ipv4.IsDigitGroup(o) {
      if |o| == 1 { DecimalValue1(o); }
      if |o| == 2 { DecimalValue2(o); }
      if |o| == 3 { DecimalValue3(o); }
    }
  }

  /** An embedded dotted quad is a dotted quad `isValidIPv4` accepts. */
  lemma EmbeddedQuadIsIpv4(q: string)
    requires IsEmbeddedQuad(q)
    ensures Ipv4.IsValidIPv4(q)
  {
    var parts := Split(q, '.');
    forall i | 0 <= i < 4 ensures Ipv4.IsOctet(parts[i]) { EmbeddedOctetIff(parts[i]); }
  }

  /**
   * In an accepted string with a dot, the last `:`-separated field is a
   * dotted quad whose four octets are each at most 255.
   */
  lemma EmbeddedOctetsInRange(s: string)
    requires IsValidIPv6(s) && '.' in s
    ensures var f := Split(s, ':'); IsEmbeddedQuad(f[|f| - 1]) && Ipv4.IsValidIPv4(f[|f| - 1])
  {
    var f := Split(s, ':');
    if IsLinkLocalWithZone(s) {
      ZoneFormHasNoDot(s);
      assert false;
    }
    FieldFormsAreGroups(f);
    if !IsEmbeddedQuad(f[|f| - 1]) {
      HexGroupsExclude(f);
      FieldsExclude(s, ':', '.');
      assert false;
    }
    EmbeddedQuadIsIpv4(f[|f| - 1]);
  }

  // ---------------------------------------------------------------------------
  // Forms that are accepted, and a way to reject

  /** Eight groups of one to four hex digits joined by colons are accepted. */
  lemma FullFormAccepted(gs: seq<string>)
    requires |gs| == 8 && AllHexGroups(gs)
    ensures IsValidIPv6(Join(gs, ':'))
  {
    HexGroupsExclude(gs);
    SplitJoin(gs, ':');
  }

  /** `l::r` with groups on both sides and at most seven groups in all is accepted. */
  lemma CompressedAccepted(l: seq<string>, r: seq<string>)
    requires 1 <= |l| && 1 <= |r| && |l| + |r| <= 7 && AllHexGroups(l) && AllHexGroups(r)
    ensures IsValidIPv6(Join(l, ':') + "::" + Join(r, ':'))
  {
    var fs := l + ([""] + r);
    RunFields(l, r);
    SuffixedIsJoin(l, ':');
    PrefixedIsJoin(r, ':');
    HexGroupsExclude(l);
    HexGroupsExclude(r);
    assert NoneContains(fs, ':');
    assert Join(l, ':') + "::" + Join(r, ':') == Join(fs, ':');
    SplitJoin(fs, ':');
    InnerWitness(fs, l, r);
  }

  /** `::r` with one to seven groups is accepted, and so is `::` itself. */
  lemma LeadingCompressedAccepted(r: seq<string>)
    requires |r| <= 7 && AllHexGroups(r)
    ensures IsValidIPv6("::" + Join(r, ':'))
  {
    if r == [] {
      assert "::" + Join(r, ':') == "::";
      DoubleColonAccepted();
    } else {
      LeadingGroupsAccepted(r);
    }
  }

  lemma DoubleColonAccepted()
    ensures IsValidIPv6("::")
  {
    Join3("", "", "", ':');
    AcceptedByFields("::", ["", "", ""]);
  }

  lemma LeadingGroupsAccepted(r: seq<string>)
    requires 1 <= |r| <= 7 && AllHexGroups(r)
    ensures IsValidIPv6("::" + Join(r, ':'))
  {
    var s := "::" + Join(r, ':');
    PrefixedIsJoin(r, ':');
    DoubledSeparator(Join(r, ':'), ':');
    LeadingWitness(s, r);
    LeadingRegexGivesFields(s);
  }

  lemma LeadingWitness(s: string, r: seq<string>)
    requires 1 <= |r| <= 7 && AllHexGroups(r) && s == ":" + Prefixed(r, ':')
    ensures RegexLeading(s)
  {
  }

  /** `l::` with one to seven groups is accepted. */
  lemma TrailingCompressedAccepted(l: seq<string>)
    requires 1 <= |l| <= 7 && AllHexGroups(l)
    ensures IsValidIPv6(Join(l, ':') + "::")
  {
    var s := Join(l, ':') + "::";
    SuffixedIsJoin(l, ':');
    assert s == Suffixed(l, ':') + ":";
    TrailingRegexGivesFields(s);
  }

  /** A string whose fields take one of the field-based forms is accepted. */
  lemma AcceptedByFields(s: string, fs: seq<string>)
    requires s == Join(fs, ':') && |fs| >= 1 && NoneContains(fs, ':')
    requires IsFullForm(fs) || IsTrailingCompressed(fs) || IsInnerCompressed(fs) ||
             IsLeadingCompressed(fs) || IsMappedIpv4(fs) || IsCompressedIpv4(fs)
    ensures IsValidIPv6(s)
  {
    SplitJoin(fs, ':');
  }

  /** Four embedded octets with dots between form an embedded quad. */
  lemma QuadOf(a: string, b: string, c: string, d: string)
    requires IsEmbeddedOctet(a) && IsEmbeddedOctet(b) && IsEmbeddedOctet(c) && IsEmbeddedOctet(d)
    ensures IsEmbeddedQuad(a + "." + b + "." + c + "." + d)
  {
    OctetFacts(a);
    OctetFacts(b);
    OctetFacts(c);
    OctetFacts(d);
    Join4(a, b, c, d, '.');
    SplitJoin([a, b, c, d], '.');
  }

  /** A dotted quad after `::` or after `::ffff:` is accepted. */
  lemma MappedAccepted(q: string)
    requires IsEmbeddedQuad(q)
    ensures IsValidIPv6("::" + q) && IsValidIPv6("::ffff:" + q)
  {
    QuadExcludes(q);
    Join3("", "", q, ':');
    MappedFieldsOf("::" + q, ["", "", q]);
    Join4("", "", "ffff", q, ':');
    MappedFieldsOf("::ffff:" + q, ["", "", "ffff", q]);
  }

  /** `fe80:` then up to four colon-led short hex runs, `%` and a zone index is accepted. */
  lemma ZoneAccepted(xs: seq<string>, z: string)
    requires |xs| <= 4 && AllShortHexRuns(xs) && IsZoneId(z)
    ensures IsValidIPv6("fe80:" + Prefixed(xs, ':') + "%" + z)
  {
    ZoneRegexGivesForm("fe80:" + Prefixed(xs, ':') + "%" + z);
  }

  /** A string with `%` that does not start with lower-case `fe80:` is rejected. */
  lemma RejectedZoneWithoutLinkLocal(s: string)
    requires '%' in s && (|s| <= 5 || s[..5] != "fe80:")
    ensures !IsValidIPv6(s)
  {
    if IsValidIPv6(s) { ZoneOnlyAfterLinkLocal(s); }
  }

  /** Without `%`, a field other than the last that is not a short hex run rejects. */
  lemma RejectedByField(s: string, i: nat)
    requires '%' !in s && i < |Split(s, ':')| - 1 && !IsShortHexRun(Split(s, ':')[i])
    ensures !IsValidIPv6(s)
  {
    if IsValidIPv6(s) { GroupsAreShortHex(s); }
  }

  // ---------------------------------------------------------------------------
  // Examples

  /** The full eight-group form. */
  lemma AcceptsFullForm()
    ensures IsValidIPv6("2001:0db8:0000:0000:0000:ff00:0042:8329")
  {
    EightGroupsAccepted("2001", "0db8", "0000", "0000", "0000", "ff00", "0042", "8329");
    FullFormText();
  }

  lemma FullFormText()
    ensures "2001" + ":" + "0db8" + ":" + "0000" + ":" + "0000" + ":" +
      "0000" + ":" + "ff00" + ":" + "0042" + ":" + "8329" == "2001:0db8:0000:0000:0000:ff00:0042:8329"
  {
    var x := "2001" + ":" + "0db8" + ":" + "0000" + ":" + "0000";
    var y := "0000" + ":" + "ff00" + ":" + "0042" + ":" + "8329";
    assert x == "2001:0db8:0000:0000";
    assert y == "0000:ff00:0042:8329";
    assert x + ":" + y == "2001:0db8:0000:0000" + ":" + "0000:ff00:0042:8329";
  }

  lemma EightGroupsAccepted(a: string, b: string, c: string, d: string,
                            e: string, f: string, g: string, h: string)
    requires IsHexGroup(a) && IsHexGroup(b) && IsHexGroup(c) && IsHexGroup(d)
    requires IsHexGroup(e) && IsHexGroup(f) && IsHexGroup(g) && IsHexGroup(h)
    ensures IsValidIPv6(a + ":" + b + ":" + c + ":" + d + ":" + e + ":" + f + ":" + g + ":" + h)
  {
    var l, r := [a, b, c, d], [e, f, g, h];
    Join4(a, b, c, d, ':');
    Join4(e, f, g, h, ':');
    JoinAppend(l, r, ':');
    assert AllHexGroups(l + r);
    FullFormAccepted(l + r);
    assert Join(l + r, ':') == a + ":" + b + ":" + c + ":" + d + ":" + e + ":" + f + ":" + g + ":" + h;
  }

  /** The loopback address in compressed form. */
  lemma AcceptsLoopback()
    ensures IsValidIPv6("::1")
  {
    LeadingGroupsAccepted(["1"]);
    assert "::" + Join(["1"], ':') == "::1";
  }

  /** A link-local address with one group after the gap. */
  lemma AcceptsLinkLocal()
    ensures IsValidIPv6("fe80::1")
  {
    CompressedAccepted(["fe80"], ["1"]);
    assert Join(["fe80"], ':') + "::" + Join(["1"], ':') == "fe80::1";
  }

  /** A link-local address with a zone suffix. */
  lemma AcceptsZone()
    ensures IsValidIPv6("fe80::1%eth0")
  {
    ZoneAccepted(["1"], "eth0");
    assert "fe80:" + Prefixed(["1"], ':') + "%" + "eth0" == "fe80::1%eth0";
  }

  /** An IPv4-mapped address. */
  lemma AcceptsMappedIpv4()
    ensures IsValidIPv6("::ffff:192.168.1.1")
  {
    QuadOf("192", "168", "1", "1");
    MappedAccepted("192" + "." + "168" + "." + "1" + "." + "1");
    MappedText();
  }

  lemma MappedText()
    ensures "::ffff:" + ("192" + "." + "168" + "." + "1" + "." + "1") == "::ffff:192.168.1.1"
  {
  }

  /** A five-digit group is rejected. */
  lemma RejectsLongGroup()
    ensures !IsValidIPv6("12345::1")
  {
    var s := "12345" + ":" + "" + ":" + "1";
    Join3("12345", "", "1", ':');
    FieldsOf(s, ["12345", "", "1"], ':');
    RejectedByField(s, 0);
    LongGroupText();
  }

  lemma LongGroupText()
    ensures "12345" + ":" + "" + ":" + "1" == "12345::1"
  {
  }

  /** A non-hex letter is rejected. */
  lemma RejectsNonHex()
    ensures !IsValidIPv6("2001:xyz::1")
  {
    var s := "2001" + ":" + "xyz" + ":" + "" + ":" + "1";
    Join4("2001", "xyz", "", "1", ':');
    FieldsOf(s, ["2001", "xyz", "", "1"], ':');
    assert !IsHexDigit("xyz"[0]);
    RejectedByField(s, 1);
    NonHexText();
  }

  lemma NonHexText()
    ensures "2001" + ":" + "xyz" + ":" + "" + ":" + "1" == "2001:xyz::1"
  {
  }

  /** The zone alternative spells `fe80` in lower case only. */
  lemma RejectsUpperCaseZonePrefix()
    ensures !IsValidIPv6("FE80::1%eth0")
  {
    var s := "FE80::1%eth0";
    assert s[7] == '%' && s[..5][0] == 'F';
    RejectedZoneWithoutLinkLocal(s);
  }

  /** The zone alternative needs no group after `fe80:`: "fe80:%eth0" is accepted. */
  lemma AcceptsZoneWithoutGroups()
    ensures IsValidIPv6("fe80:%eth0")
  {
    ZoneAccepted([], "eth0");
    assert "fe80:" + Prefixed([], ':') + "%" + "eth0" == "fe80:%eth0";
  }
}
