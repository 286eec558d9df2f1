/**
 * String operations the plugin relies on: prefix and suffix tests,
 * `String.prototype.indexOf`/`replace` with a string pattern, the decimal
 * printing of integers, `Array.prototype.join` and a simplified `path.join`.
 */
module Text {
  import opened Wrappers

  predicate StartsWith(s: string, prefix: string)
  {
    |prefix| <= |s| && s[..|prefix|] == prefix
  }

  predicate EndsWith(s: string, suffix: string)
  {
    |suffix| <= |s| && s[|s| - |suffix|..] == suffix
  }

  /** `/\.js$/`: the file name ends in `.js`. */
  predicate IsJsFile(f: string)
  {
    EndsWith(f, ".js")
  }

  /** `pat` occurs in `s` starting at index `i`. */
  predicate OccursAt(s: string, pat: string, i: nat)
  {
    i + |pat| <= |s| && s[i..i + |pat|] == pat
  }

  /** First index at or after `from` where `pat` occurs (`s.indexOf(pat, from)`). */
  function IndexOfFrom(s: string, pat: string, from: nat): (r: Option<nat>)
    requires from <= |s|
    ensures r.Some? ==> from <= r.value && OccursAt(s, pat, r.value)
    ensures r.Some? ==> forall j :: from <= j < r.value ==> !OccursAt(s, pat, j)
    ensures r.None? ==> forall j :: from <= j ==> !OccursAt(s, pat, j)
    decreases |s| - from
  {
    if OccursAt(s, pat, from) then Some(from)
    else if from == |s| then None
    else IndexOfFrom(s, pat, from + 1)
  }

  function IndexOf(s: string, pat: string): Option<nat>
  {
    IndexOfFrom(s, pat, 0)
  }

  /**
   * `s.replace(pat, '')` with a string pattern: only the first occurrence is
   * removed; putting `pat` back at that index gives `s` again.
   */
  function RemoveFirst(s: string, pat: string): (r: string)
    ensures IndexOf(s, pat).None? ==> r == s
    ensures IndexOf(s, pat).Some? ==>
      var i := IndexOf(s, pat).value;
      i <= |r| && s == r[..i] + pat + r[i..] && |r| == |s| - |pat|
  {
    match IndexOf(s, pat)
    case None => s
    case Some(i) =>
      var r := s[..i] + s[i + |pat|..];
      assert r[..i] == s[..i] && r[i..] == s[i + |pat|..];
      assert s == s[..i] + s[i..i + |pat|] + s[i + |pat|..];
      r
  }

  /** When `s` begins with `pat`, removing its first occurrence drops exactly that prefix. */
  lemma RemoveFirstOfPrefix(s: string, pat: string)
    requires StartsWith(s, pat)
    ensures RemoveFirst(s, pat) == s[|pat|..]
  {
    assert OccursAt(s, pat, 0);
    assert IndexOf(s, pat) == Some(0);
  }

  // ---------------------------------------------------------------------
  // Decimal printing of integers (`${n}` for an integral number)
  // ---------------------------------------------------------------------

  predicate IsDigit(c: char)
  {
    '0' <= c <= '9'
  }

  function DigitChar(d: nat): (c: char)
    requires d < 10
    ensures IsDigit(c)
  {
    (('0' as int) + d) as char
  }

  /** Decimal digits of `n`, most significant first, without leading zeros. */
  function NatToString(n: nat): string
    decreases n
  {
    if n < 10 then [DigitChar(n)] else NatToString(n / 10) + [DigitChar(n % 10)]
  }

  /** The decimal text of a number is non-empty and made of digits. */
  lemma {:induction false} NatToStringDigits(n: nat)
    ensures |NatToString(n)| >= 1
    ensures forall i :: 0 <= i < |NatToString(n)| ==> IsDigit(NatToString(n)[i])
    decreases n
  {
    if n >= 10 {
      NatToStringDigits(n / 10);
      var r := NatToString(n);
      assert r == NatToString(n / 10) + [DigitChar(n % 10)];
      forall i | 0 <= i < |r|
        ensures IsDigit(r[i])
      {
        if i < |r| - 1 {
          assert r[i] == NatToString(n / 10)[i];
        }
      }
    }
  }

  /** Value of a string of decimal digits, read most significant first. */
  function ParseNat(s: string): int
  {
    if s == [] then 0 else ParseNat(s[..|s| - 1]) * 10 + (s[|s| - 1] as int - '0' as int)
  }

  /** Printing a natural number and reading it back gives the number. */
  lemma {:induction false} ParseNatToString(n: nat)
    ensures ParseNat(NatToString(n)) == n
    decreases n
  {
    var r := NatToString(n);
    if n < 10 {
      assert r[..|r| - 1] == [];
    } else {
      assert r[..|r| - 1] == NatToString(n / 10);
      ParseNatToString(n / 10);
    }
  }

  /** The decimal form of an integer, with a leading `-` when it is negative. */
  function IntToString(i: int): string
  {
    if i < 0 then "-" + NatToString(-i) else NatToString(i)
  }

  /** The text of an integer is non-empty and starts with a digit or a minus sign, the minus sign exactly when it is negative. */
  lemma IntToStringLead(i: int)
    ensures |IntToString(i)| >= 1 && (IsDigit(IntToString(i)[0]) || IntToString(i)[0] == '-')
    ensures IntToString(i)[0] == '-' <==> i < 0
  {
    if i >= 0 {
      NatToStringDigits(i);
      assert IsDigit(NatToString(i)[0]);
    }
  }

  /** Behind the minus sign of a negative integer stand the digits of its magnitude. */
  lemma NegativeDigits(i: int)
    requires i < 0
    ensures IntToString(i)[1..] == NatToString(-i)
  {
  }

  /** Distinct natural numbers print differently. */
  lemma NatToStringInjective(m: nat, n: nat)
    requires NatToString(m) == NatToString(n)
    ensures m == n
  {
    ParseNatToString(m);
    ParseNatToString(n);
  }

  /** Distinct integers print differently. */
  lemma IntToStringInjective(a: int, b: int)
    requires IntToString(a) == IntToString(b)
    ensures a == b
  {
    IntToStringLead(a);
    IntToStringLead(b);
    if a < 0 {
      NegativeDigits(a);
      NegativeDigits(b);
      NatToStringInjective(-a, -b);
    } else {
      NatToStringInjective(a, b);
    }
  }

  // ---------------------------------------------------------------------
  // Joining
  // ---------------------------------------------------------------------

  /** `parts.join(sep)`. */
  function JoinWith(parts: seq<string>, sep: string): string
  {
    if parts == [] then ""
    else if |parts| == 1 then parts[0]
    else parts[0] + sep + JoinWith(parts[1..], sep)
  }

  /** Where the `i`-th part starts inside `JoinWith(parts, sep)`. */
  function PartOffset(parts: seq<string>, sep: string, i: nat): nat
    requires i <= |parts|
  {
    if i == 0 then 0 else PartOffset(parts, sep, i - 1) + |parts[i - 1]| + |sep|
  }

  /**
   * Every part appears in the joined string at its offset, in order, and
   * every part but the last is followed by the separator.
   */
  lemma {:induction false} JoinWithLayout(parts: seq<string>, sep: string, i: nat)
    requires i < |parts|
    ensures OccursAt(JoinWith(parts, sep), parts[i], PartOffset(parts, sep, i))
    ensures i + 1 < |parts| ==>
      OccursAt(JoinWith(parts, sep), sep, PartOffset(parts, sep, i) + |parts[i]|)
    decreases |parts|
  {
    var j := JoinWith(parts, sep);
    if |parts| == 1 {
      OccursAtFront(parts[0], "");
    } else {
      var rest := JoinWith(parts[1..], sep);
      assert j == parts[0] + (sep + rest);
      if i == 0 {
        OccursAtFront(parts[0], sep + rest);
        OccursAtFront(sep, rest);
        OccursAtShift(parts[0], sep + rest, sep, 0);
      } else {
        var head := parts[0] + sep;
        assert j == head + rest;
        JoinWithLayout(parts[1..], sep, i - 1);
        OffsetShift(parts, sep, i);
        var o := PartOffset(parts[1..], sep, i - 1);
        OccursAtShift(head, rest, parts[i], o);
        if i + 1 < |parts| {
          OccursAtShift(head, rest, sep, o + |parts[i]|);
        }
      }
    }
  }

  lemma OccursAtFront(a: string, b: string)
    ensures OccursAt(a + b, a, 0)
  {
    assert (a + b)[..|a|] == a;
  }

  /** An occurrence inside `rest` is an occurrence inside `head + rest`, shifted by `|head|`. */
  lemma OccursAtShift(head: string, rest: string, pat: string, o: nat)
    requires OccursAt(rest, pat, o)
    ensures OccursAt(head + rest, pat, |head| + o)
  {
    assert (head + rest)[|head| + o..|head| + o + |pat|] == rest[o..o + |pat|];
  }

  /** Offsets in the tail of a list are shifted by the first part and one separator. */
  lemma {:induction false} OffsetShift(parts: seq<string>, sep: string, i: nat)
    requires 1 <= i <= |parts|
    ensures PartOffset(parts, sep, i) == |parts[0]| + |sep| + PartOffset(parts[1..], sep, i - 1)
  {
    if i > 1 {
      OffsetShift(parts, sep, i - 1);
    }
  }

  // ---------------------------------------------------------------------
  // Paths
  // ---------------------------------------------------------------------

  /**
   * `path.join(dir, name)` for a directory given without a trailing
   * separator: one separator between the two, and a leading separator of
   * `name` absorbed into it.
   */
  function JoinPath(dir: string, name: string): (p: string)
    ensures StartsWith(p, dir + "/")
  {
    var p := dir + "/" + (if StartsWith(name, "/") then name[1..] else name);
    assert p[..|dir| + 1] == dir + "/";
    p
  }
}
