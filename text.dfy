/**
 * Character classes, `String.prototype.split` for a one-character separator,
 * its inverse `Join`, the repetition shapes `(?:G,){n}` / `(?:,G){n}` of a
 * regular expression, and the decimal value that `parseInt(g, 10)` gives for
 * a run of ASCII digits.
 */
module Text {

  /** `\d` in a JavaScript regular expression: the ASCII digits only. */
  predicate IsDigit(c: char) { '0' <= c <= '9' }

  /** `[a-fA-F\d]` */
  predicate IsHexDigit(c: char) { IsDigit(c) || 'a' <= c <= 'f' || 'A' <= c <= 'F' }

  /** `[0-9a-zA-Z]` */
  predicate IsAlnum(c: char) { IsDigit(c) || 'a' <= c <= 'z' || 'A' <= c <= 'Z' }

  predicate AllDigits(s: string) { forall i :: 0 <= i < |s| ==> IsDigit(s[i]) }

  predicate AllHex(s: string) { forall i :: 0 <= i < |s| ==> IsHexDigit(s[i]) }

  predicate AllAlnum(s: string) { forall i :: 0 <= i < |s| ==> IsAlnum(s[i]) }

  /** A run of letters and digits holds no punctuation. */
  lemma AlnumExcludes(z: string)
    requires AllAlnum(z)
    ensures '.' !in z && ':' !in z && '%' !in z
  {
  }

  /** No element of `fs` contains the character `x`. */
  predicate NoneContains(fs: seq<string>, x: char) { forall i :: 0 <= i < |fs| ==> x !in fs[i] }

  /**
   * The fields of `s` between occurrences of `sep`, as `s.split(sep)` returns
   * them: one field more than there are separators, empty fields kept, and
   * `[""]` for the empty string.
   */
  function Split(s: string, sep: char): (fields: seq<string>)
    ensures |fields| >= 1
    ensures NoneContains(fields, sep)
    decreases |s|
  {
    if s == [] then [""]
    else
      var rest := Split(s[1..], sep);
      if s[0] == sep then [""] + rest
      else [[s[0]] + rest[0]] + rest[1..]
  }

  /** The fields glued back together with `sep` between neighbours. */
  function Join(fields: seq<string>, sep: char): string
  {
    if fields == [] then ""
    else if |fields| == 1 then fields[0]
    else fields[0] + [sep] + Join(fields[1..], sep)
  }

  /** `(?:G sep){n}`: every group followed by the separator. */
  function Suffixed(groups: seq<string>, sep: char): string
  {
    if groups == [] then "" else groups[0] + [sep] + Suffixed(groups[1..], sep)
  }

  /** `(?:sep G){n}`: every group preceded by the separator. */
  function Prefixed(groups: seq<string>, sep: char): string
  {
    if groups == [] then "" else [sep] + groups[0] + Prefixed(groups[1..], sep)
  }

  function DigitValue(c: char): nat
    requires IsDigit(c)
  {
    c as int - '0' as int
  }

  /** `parseInt(s, 10)` for a non-empty run of ASCII digits. */
  function DecimalValue(s: string): nat
    requires AllDigits(s)
  {
    if s == [] then 0 else DecimalValue(s[..|s| - 1]) * 10 + DigitValue(s[|s| - 1])
  }

  lemma DecimalValue3(s: string)
    requires |s| == 3 && AllDigits(s)
    ensures DecimalValue(s) == 100 * DigitValue(s[0]) + 10 * DigitValue(s[1]) + DigitValue(s[2])
  {
    DecimalValue2(s[..2]);
  }

  lemma DecimalValue2(s: string)
    requires |s| == 2 && AllDigits(s)
    ensures DecimalValue(s) == 10 * DigitValue(s[0]) + DigitValue(s[1])
  {
    DecimalValue1(s[..1]);
  }

  lemma DecimalValue1(s: string)
    requires |s| == 1 && AllDigits(s)
    ensures DecimalValue(s) == DigitValue(s[0])
  {
    assert s[..0] == [];
  }

  /** A string cut before position `i` and around position `j`. */
  lemma CutAround(s: string, i: nat, j: nat)
    requires i <= j < |s|
    ensures s == s[..i] + s[i..j] + [s[j]] + s[j + 1..]
  {
    assert s[..j] == s[..i] + s[i..j];
    assert s == s[..j] + [s[j]] + s[j + 1..];
  }

  /** The pieces of `a + t + [c] + z`, read back by position. */
  lemma PiecesOf(s: string, a: string, t: string, c: char, z: string)
    requires s == a + t + [c] + z
    ensures s[..|a|] == a && s[|a|..|a| + |t|] == t && s[|a| + |t|] == c && s[|a| + |t| + 1..] == z
  {
  }

  /** Two separators in front of `x`, regrouped. */
  lemma DoubledSeparator(x: string, sep: char)
    ensures [sep, sep] + x == [sep] + ([sep] + x)
  {
  }

  /** A field list ending in two empty fields. */
  lemma LastTwoFields(f: seq<string>)
    requires |f| >= 2 && f[|f| - 2] == "" && f[|f| - 1] == ""
    ensures f == f[..|f| - 2] + ["", ""]
  {
  }

  /** A field list cut around position `i`. */
  lemma FieldsAround(f: seq<string>, i: nat)
    requires i < |f|
    ensures f == f[..i] + ([f[i]] + f[i + 1..])
  {
    assert f[i..] == [f[i]] + f[i + 1..];
    assert f == f[..i] + f[i..];
  }

  /** A string without the separator is a single field. */
  lemma {:induction false} SplitWithoutSeparator(s: string, sep: char)
    requires sep !in s
    ensures Split(s, sep) == [s]
    decreases |s|
  {
    if s != [] {
      SplitWithoutSeparator(s[1..], sep);
      assert [s[0]] + s[1..] == s;
    }
  }

  /** More than one field means the separator occurs in the string. */
  lemma SeveralFieldsHaveSeparator(s: string, sep: char)
    requires |Split(s, sep)| >= 2
    ensures sep in s
  {
    if sep !in s { SplitWithoutSeparator(s, sep); }
  }

  /** Splitting `f + [sep] + t` yields `f` first when `f` holds no separator. */
  lemma {:induction false} SplitAfterField(f: string, sep: char, t: string)
    requires sep !in f
    ensures Split(f + [sep] + t, sep) == [f] + Split(t, sep)
    decreases |f|
  {
    var s := f + [sep] + t;
    if f == [] {
      assert s[1..] == t;
    } else {
      assert s[1..] == f[1..] + [sep] + t;
      SplitAfterField(f[1..], sep, t);
      assert [f[0]] + f[1..] == f;
    }
  }

  /** Splitting undoes joining: the round trip from fields to text and back. */
  lemma {:induction false} SplitJoin(fields: seq<string>, sep: char)
    requires |fields| >= 1 && NoneContains(fields, sep)
    ensures Split(Join(fields, sep), sep) == fields
    decreases |fields|
  {
    if |fields| == 1 {
      SplitWithoutSeparator(fields[0], sep);
    } else {
      assert NoneContains(fields[1..], sep) by {
        forall i | 0 <= i < |fields[1..]| ensures sep !in fields[1..][i] {
          assert fields[1..][i] == fields[i + 1];
        }
      }
      SplitJoin(fields[1..], sep);
      SplitAfterField(fields[0], sep, Join(fields[1..], sep));
      assert [fields[0]] + fields[1..] == fields;
    }
  }

  /** Joining undoes splitting: the round trip from text to fields and back. */
  lemma {:induction false} JoinSplit(s: string, sep: char)
    ensures Join(Split(s, sep), sep) == s
    decreases |s|
  {
    if s != [] {
      JoinSplit(s[1..], sep);
      var rest := Split(s[1..], sep);
      if s[0] == sep {
        assert ([""] + rest)[1..] == rest;
      } else if |rest| == 1 {
        assert [s[0]] + s[1..] == s;
      } else {
        var fields := [[s[0]] + rest[0]] + rest[1..];
        assert fields[1..] == rest[1..];
        assert Join(rest, sep) == rest[0] + [sep] + Join(rest[1..], sep);
        assert [s[0]] + s[1..] == s;
      }
    }
  }

  /** `fields` are the fields of `s` exactly when `s` is `fields` joined. */
  lemma FieldsOf(s: string, fields: seq<string>, sep: char)
    requires |fields| >= 1 && NoneContains(fields, sep)
    ensures Split(s, sep) == fields <==> s == Join(fields, sep)
  {
    JoinSplit(s, sep);
    SplitJoin(fields, sep);
  }

  /** Joining a concatenation puts one separator at the seam. */
  lemma {:induction false} JoinAppend(a: seq<string>, b: seq<string>, sep: char)
    requires |a| >= 1 && |b| >= 1
    ensures Join(a + b, sep) == Join(a, sep) + [sep] + Join(b, sep)
    decreases |a|
  {
    if |a| == 1 {
      assert (a + b)[1..] == b;
    } else {
      assert (a + b)[1..] == a[1..] + b;
      JoinAppend(a[1..], b, sep);
    }
  }

  /** Three, four and five fields joined, written out. */
  lemma Join3(a: string, b: string, c: string, sep: char)
    ensures Join([a, b, c], sep) == a + [sep] + b + [sep] + c
  {
    assert [b, c][1..] == [c];
    assert Join([b, c], sep) == b + [sep] + c;
    assert [a, b, c][1..] == [b, c];
  }

  lemma Join4(a: string, b: string, c: string, d: string, sep: char)
    ensures Join([a, b, c, d], sep) == a + [sep] + b + [sep] + c + [sep] + d
  {
    Join3(b, c, d, sep);
    assert [a, b, c, d][1..] == [b, c, d];
  }

  lemma Join5(a: string, b: string, c: string, d: string, e: string, sep: char)
    ensures Join([a, b, c, d, e], sep) == a + [sep] + b + [sep] + c + [sep] + d + [sep] + e
  {
    Join4(b, c, d, e, sep);
    assert [a, b, c, d, e][1..] == [b, c, d, e];
  }

  /** `(?:G sep){n}` is the groups joined, followed by one separator. */
  lemma {:induction false} SuffixedIsJoin(groups: seq<string>, sep: char)
    requires |groups| >= 1
    ensures Suffixed(groups, sep) == Join(groups, sep) + [sep]
    decreases |groups|
  {
    if |groups| > 1 { SuffixedIsJoin(groups[1..], sep); }
  }

  /** `(?:sep G){n}` is one separator, followed by the groups joined. */
  lemma {:induction false} PrefixedIsJoin(groups: seq<string>, sep: char)
    requires |groups| >= 1
    ensures Prefixed(groups, sep) == [sep] + Join(groups, sep)
    decreases |groups|
  {
    if |groups| > 1 { PrefixedIsJoin(groups[1..], sep); }
  }

  /** `(?:G sep){n}` followed by more fields joined is the whole list joined. */
  lemma SuffixedThenJoin(groups: seq<string>, tail: seq<string>, sep: char)
    requires |groups| >= 1 && |tail| >= 1
    ensures Suffixed(groups, sep) + Join(tail, sep) == Join(groups + tail, sep)
  {
    SuffixedIsJoin(groups, sep);
    JoinAppend(groups, tail, sep);
  }

  /** Joined text holds no character that is neither the separator nor in a field. */
  lemma {:induction false} JoinExcludes(fields: seq<string>, sep: char, x: char)
    requires x != sep && NoneContains(fields, x)
    ensures x !in Join(fields, sep)
    decreases |fields|
  {
    if |fields| > 1 {
      assert NoneContains(fields[1..], x) by {
        forall i | 0 <= i < |fields[1..]| ensures x !in fields[1..][i] {
          assert fields[1..][i] == fields[i + 1];
        }
      }
      JoinExcludes(fields[1..], sep, x);
    }
  }

  /** A character of some field is a character of the joined text. */
  lemma {:induction false} JoinIncludes(fields: seq<string>, sep: char, i: nat, x: char)
    requires i < |fields| && x in fields[i]
    ensures x in Join(fields, sep)
    decreases |fields|
  {
    if |fields| > 1 && i > 0 {
      assert fields[1..][i - 1] == fields[i];
      JoinIncludes(fields[1..], sep, i - 1, x);
    }
  }

  /** A string holds a character none of its fields hold only if it is the separator. */
  lemma FieldsExclude(s: string, sep: char, x: char)
    requires x != sep && NoneContains(Split(s, sep), x)
    ensures x !in s
  {
    JoinSplit(s, sep);
    JoinExcludes(Split(s, sep), sep, x);
  }

  /** A character of a field is a character of the string that was split. */
  lemma FieldsInclude(s: string, sep: char, i: nat, x: char)
    requires i < |Split(s, sep)| && x in Split(s, sep)[i]
    ensures x in s
  {
    JoinSplit(s, sep);
    JoinIncludes(Split(s, sep), sep, i, x);
  }
}
