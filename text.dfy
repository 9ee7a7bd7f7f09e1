/** The string operations the report parser relies on: Python's `str.split` with a
    one-character separator, `str.join`, `os.path.basename`, `int()` on a decimal token,
    the decimal rendering of an integer inside an f-string, and the ordering Python
    uses for `str`. */
module Text {
  import opened Wrappers
  import opened Seqs

  // ---------------------------------------------------------------- split and join

  /** `s.split(sep)`: the pieces between separators, always one more piece than there
      are separators ("".split("_") is [""]). */
  function Split(s: string, sep: char): (parts: seq<string>)
    ensures |parts| > 0
  {
    if s == [] then [""]
    else
      var rest := Split(s[1..], sep);
      if s[0] == sep then [""] + rest
      else [[s[0]] + rest[0]] + rest[1..]
  }

  /** One step of `Split` on a string written as its first character and the rest. */
  lemma SplitCons(h: char, t: string, sep: char)
    ensures Split([h] + t, sep) ==
      (if h == sep then [""] + Split(t, sep)
       else [[h] + Split(t, sep)[0]] + Split(t, sep)[1..])
  {
    assert ([h] + t)[1..] == t;
  }

  /** There is one more piece than there are separators, and no piece holds one. */
  lemma {:induction false} SplitPieces(s: string, sep: char)
    ensures |Split(s, sep)| == Occurrences(s, sep) + 1
    ensures forall i :: 0 <= i < |Split(s, sep)| ==> sep !in Split(s, sep)[i]
  {
    if s != [] {
      SplitPieces(s[1..], sep);
      assert s == [s[0]] + s[1..];
      OccurrencesCons(s[0], s[1..], sep);
      SplitCons(s[0], s[1..], sep);
    }
  }

  /** `sep.join(parts)`. */
  function Join(parts: seq<string>, sep: string): string
  {
    if |parts| == 0 then ""
    else if |parts| == 1 then parts[0]
    else parts[0] + sep + Join(parts[1..], sep)
  }

  /** Joining the pieces of a split with the same separator gives back the string. */
  lemma {:induction false} JoinSplit(s: string, sep: char)
    ensures Join(Split(s, sep), [sep]) == s
  {
    if s != [] {
      var rest := Split(s[1..], sep);
      JoinSplit(s[1..], sep);
      if s[0] == sep {
        assert Split(s, sep) == [""] + rest;
        assert ([""] + rest)[1..] == rest;
      } else {
        var parts := Split(s, sep);
        assert parts == [[s[0]] + rest[0]] + rest[1..];
        if |rest| == 1 {
          assert parts == [[s[0]] + rest[0]];
        } else {
          assert parts[1..] == rest[1..];
          assert Join(rest, [sep]) == rest[0] + [sep] + Join(rest[1..], [sep]);
        }
      }
    }
  }

  /** A string without the separator splits into itself alone. */
  lemma {:induction false} SplitWithoutSeparator(s: string, sep: char)
    requires sep !in s
    ensures Split(s, sep) == [s]
  {
    if s != [] {
      SplitWithoutSeparator(s[1..], sep);
      assert [s[0]] + s[1..] == s;
    }
  }

  /** A separator between `a` and `b` splits them apart completely. */
  lemma {:induction false} SplitConcat(a: string, b: string, sep: char)
    ensures Split(a + [sep] + b, sep) == Split(a, sep) + Split(b, sep)
  {
    var s := a + [sep] + b;
    if a == [] {
      assert s[0] == sep && s[1..] == b;
    } else {
      var t := a[1..] + [sep] + b;
      assert s[0] == a[0] && s[1..] == t;
      SplitConcat(a[1..], b, sep);
      var front, back := Split(a[1..], sep), Split(b, sep);
      if a[0] != sep {
        assert (front + back)[1..] == front[1..] + back;
      }
    }
  }

  /** Splitting a join of separator-free pieces gives back the pieces. */
  lemma {:induction false} SplitJoin(parts: seq<string>, sep: char)
    requires |parts| > 0
    requires forall i :: 0 <= i < |parts| ==> sep !in parts[i]
    ensures Split(Join(parts, [sep]), sep) == parts
  {
    if |parts| == 1 {
      SplitWithoutSeparator(parts[0], sep);
    } else {
      SplitJoin(parts[1..], sep);
      SplitConcat(parts[0], Join(parts[1..], [sep]), sep);
      SplitWithoutSeparator(parts[0], sep);
      assert parts == [parts[0]] + parts[1..];
    }
  }

  /** The number of times `c` occurs in a join of pieces that do not contain it. */
  lemma {:induction false} JoinSeparatorCount(parts: seq<string>, sep: string, c: char)
    requires |parts| > 0
    requires forall i :: 0 <= i < |parts| ==> c !in parts[i]
    ensures Occurrences(Join(parts, sep), c) == (|parts| - 1) * Occurrences(sep, c)
  {
    if |parts| == 1 {
      assert Occurrences(parts[0], c) == 0;
    } else {
      var tail := Join(parts[1..], sep);
      JoinSeparatorCount(parts[1..], sep, c);
      assert Join(parts, sep) == parts[0] + sep + tail;
      OccurrencesConcat(parts[0] + sep, tail, c);
      OccurrencesConcat(parts[0], sep, c);
      assert Occurrences(parts[0], c) == 0;
      var k := Occurrences(sep, c);
      assert Occurrences(tail, c) == (|parts| - 2) * k;
      assert (|parts| - 1) * k == k + (|parts| - 2) * k;
    }
  }

  /** `s.split(sep)[0]`: `s` cut just before its first separator. */
  function BeforeFirst(s: string, sep: char): (r: string)
    ensures sep !in r && r <= s
    ensures r == s || s[|r|] == sep
  {
    if s == [] || s[0] == sep then [] else [s[0]] + BeforeFirst(s[1..], sep)
  }

  /** `BeforeFirst` is indeed the first piece of the split. */
  lemma {:induction false} BeforeFirstIsFirstPiece(s: string, sep: char)
    ensures Split(s, sep)[0] == BeforeFirst(s, sep)
  {
    if s != [] && s[0] != sep {
      BeforeFirstIsFirstPiece(s[1..], sep);
    }
  }

  /** `os.path.basename(p)` on POSIX: whatever follows the last `/`. */
  function Basename(path: string): (name: string)
    ensures '/' !in name
  {
    var parts := Split(path, '/');
    SplitPieces(path, '/');
    parts[|parts| - 1]
  }

  lemma BasenameOfChild(dir: string, name: string)
    requires '/' !in name
    ensures Basename(dir + "/" + name) == name
  {
    SplitConcat(dir, name, '/');
    SplitWithoutSeparator(name, '/');
  }

  // ---------------------------------------------------------------- decimal numbers

  predicate IsDigit(ch: char) { '0' <= ch <= '9' }

  predicate AllDigits(s: string) { forall i :: 0 <= i < |s| ==> IsDigit(s[i]) }

  function DigitChar(d: nat): (ch: char)
    requires d < 10
    ensures IsDigit(ch)
  {
    ('0' as int + d) as char
  }

  /** Value of a string of decimal digits, leading zeros allowed. */
  function DigitsValue(s: string): nat
    requires AllDigits(s)
  {
    if s == [] then 0
    else DigitsValue(s[..|s| - 1]) * 10 + (s[|s| - 1] as int - '0' as int)
  }

  /** Shortest decimal digits of `n`. */
  function NatToDigits(n: nat): (s: string)
    ensures |s| > 0 && AllDigits(s)
    ensures n == 0 <==> s == "0"
    ensures n > 0 ==> s[0] != '0'
  {
    if n < 10 then [DigitChar(n)] else NatToDigits(n / 10) + [DigitChar(n % 10)]
  }

  lemma {:induction false} DigitsRoundTrip(n: nat)
    ensures DigitsValue(NatToDigits(n)) == n
  {
    if n >= 10 {
      DigitsRoundTrip(n / 10);
      var s := NatToDigits(n);
      assert s[..|s| - 1] == NatToDigits(n / 10);
    }
  }

  /** An optional `+` or `-` followed by at least one decimal digit. */
  predicate Numeral(s: string)
  {
    |s| > 0 && (AllDigits(s) || ((s[0] == '-' || s[0] == '+') && |s| > 1 && AllDigits(s[1..])))
  }

  /** `int(token)` for a token that is an optional sign followed by decimal digits;
      any other token is the `ValueError` case, here `None`. */
  function ParseInt(s: string): (r: Option<int>)
    ensures r.Some? <==> Numeral(s)
    ensures r.Some? ==> forall i :: 0 < i < |s| ==> IsDigit(s[i])
    ensures r.Some? && AllDigits(s) ==> r.value >= 0
    ensures r.Some? && s[0] == '-' ==> r.value <= 0
  {
    if |s| > 0 && (s[0] == '-' || s[0] == '+') then
      if |s| > 1 && AllDigits(s[1..]) then
        var magnitude: int := DigitsValue(s[1..]);
        Some(if s[0] == '-' then -magnitude else magnitude)
      else None
    else if |s| > 0 && AllDigits(s) then Some(DigitsValue(s))
    else None
  }

  /** A leading zero does not change the value of a run of digits. */
  lemma {:induction false} LeadingZeroValue(t: string)
    requires AllDigits(t)
    ensures AllDigits("0" + t) && DigitsValue("0" + t) == DigitsValue(t)
  {
    var z := "0" + t;
    assert forall i :: 0 <= i < |z| ==> z[i] == if i == 0 then '0' else t[i - 1];
    if t != [] {
      LeadingZeroValue(t[..|t| - 1]);
      assert z[..|z| - 1] == "0" + t[..|t| - 1];
    } else {
      assert z[..0] == [];
    }
  }

  /** `int("0" + t) == int(t)` for a run of digits `t`: leading zeros are accepted. */
  lemma ParseIntLeadingZero(t: string)
    requires t != [] && AllDigits(t)
    ensures ParseInt("0" + t) == ParseInt(t) == Some(DigitsValue(t))
  {
    LeadingZeroValue(t);
  }

  /** `int("+" + t) == int(t)` and `int("-" + t) == -int(t)` for a run of digits `t`. */
  lemma ParseIntSigned(t: string)
    requires t != [] && AllDigits(t)
    ensures ParseInt("+" + t) == ParseInt(t) == Some(DigitsValue(t))
    ensures ParseInt("-" + t) == Some(-(DigitsValue(t) as int))
  {
    assert ("+" + t)[1..] == t && ("-" + t)[1..] == t;
  }

  /** A zero-padded sequence number reads as its value. */
  lemma ParseIntExample()
    ensures ParseInt("007") == Some(7)
  {
    ParseIntLeadingZero("07");
    ParseIntLeadingZero("7");
    assert "0" + "07" == "007" && "0" + "7" == "07";
    assert DigitsValue("7") == DigitsValue("") * 10 + 7 by { assert "7"[..0] == ""; }
  }

  /** `f"{n}"`: the decimal form of an integer, with `-` for negatives. */
  function IntToString(n: int): (s: string)
    ensures ParseInt(s) == Some(n)
    ensures forall i :: 0 <= i < |s| ==> IsDigit(s[i]) || s[i] == '-'
    ensures n >= 0 ==> s == "0" || s[0] != '0'
    ensures n >= 0 ==> AllDigits(s)
    ensures n < 0 ==> |s| > 1 && s[0] == '-' && s[1] != '0' && AllDigits(s[1..])
  {
    if n < 0 then
      DigitsRoundTrip(-n);
      assert ("-" + NatToDigits(-n))[1..] == NatToDigits(-n);
      "-" + NatToDigits(-n)
    else
      DigitsRoundTrip(n);
      NatToDigits(n)
  }

  // ---------------------------------------------------------------- string order

  /** Python's `a <= b` on `str`: lexicographic by code point, a prefix first. */
  predicate LexLessEq(a: string, b: string)
  {
    a == [] || (b != [] && (a[0] < b[0] || (a[0] == b[0] && LexLessEq(a[1..], b[1..]))))
  }

  lemma {:induction false} LexTotal(a: string, b: string)
    ensures LexLessEq(a, b) || LexLessEq(b, a)
  {
    if a != [] && b != [] && a[0] == b[0] {
      LexTotal(a[1..], b[1..]);
    }
  }

  lemma {:induction false} LexAntisymmetric(a: string, b: string)
    requires LexLessEq(a, b) && LexLessEq(b, a)
    ensures a == b
  {
    if a != [] && b != [] {
      LexAntisymmetric(a[1..], b[1..]);
      assert a == [a[0]] + a[1..] && b == [b[0]] + b[1..];
    }
  }

  lemma {:induction false} LexTransitive(a: string, b: string, c: string)
    requires LexLessEq(a, b) && LexLessEq(b, c)
    ensures LexLessEq(a, c)
  {
    if a != [] && a[0] == b[0] && b[0] == c[0] {
      LexTransitive(a[1..], b[1..], c[1..]);
    }
  }

  lemma LexIsTotalPreorder()
    ensures TotalPreorder(LexLessEq)
  {
    forall x, y ensures LexLessEq(x, y) || LexLessEq(y, x) {
      LexTotal(x, y);
    }
    forall x, y, z | LexLessEq(x, y) && LexLessEq(y, z) ensures LexLessEq(x, z) {
      LexTransitive(x, y, z);
    }
  }
}
