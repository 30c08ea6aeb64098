/**
 * The string operations the core relies on: Python's `str.split` with an
 * explicit one-character separator, its inverse `join`, and the decimal
 * text of a non-negative integer as `str.format` writes it.
 */
module Text {
  import opened Wrappers

  /**
   * `s.split(sep)`: the pieces between separators, empty pieces kept, so an
   * empty string gives `[""]` and `k` separators give `k + 1` pieces.
   */
  function Split(s: string, sep: char): (r: seq<string>)
    ensures |r| >= 1
    ensures forall i :: 0 <= i < |r| ==> sep !in r[i]
  {
    if s == [] then [""]
    else
      var rest := Split(s[1..], sep);
      if s[0] == sep then [""] + rest
      else [[s[0]] + rest[0]] + rest[1..]
  }

  /** `sep.join(fs)`: the pieces with one separator between neighbours. */
  function Join(fs: seq<string>, sep: char): string
    requires |fs| >= 1
  {
    if |fs| == 1 then fs[0] else fs[0] + [sep] + Join(fs[1..], sep)
  }

  /** Prepending to the first piece prepends to the joined string. */
  lemma JoinConsFirst(c: char, fs: seq<string>, sep: char)
    requires |fs| >= 1
    ensures Join([[c] + fs[0]] + fs[1..], sep) == [c] + Join(fs, sep)
  {
    var gs := [[c] + fs[0]] + fs[1..];
    assert gs[1..] == fs[1..];
  }

  /** Joining the pieces of a split gives back the string. */
  lemma {:induction false} JoinSplit(s: string, sep: char)
    ensures Join(Split(s, sep), sep) == s
  {
    if s != [] {
      var rest := Split(s[1..], sep);
      JoinSplit(s[1..], sep);
      if s[0] == sep {
        assert ([""] + rest)[1..] == rest;
      } else {
        JoinConsFirst(s[0], rest, sep);
      }
      assert s == [s[0]] + s[1..];
    }
  }

  /** A piece without the separator, followed by the separator, splits off as one piece. */
  lemma {:induction false} SplitPiece(f: string, t: string, sep: char)
    requires sep !in f
    ensures Split(f + [sep] + t, sep) == [f] + Split(t, sep)
  {
    if f != [] {
      assert (f + [sep] + t)[1..] == f[1..] + [sep] + t;
      SplitPiece(f[1..], t, sep);
      assert [f[0]] + f[1..] == f;
    } else {
      assert f + [sep] + t == [sep] + t;
      assert ([sep] + t)[1..] == t;
    }
  }

  /** A string without the separator is a single piece. */
  lemma {:induction false} SplitNoSeparator(f: string, sep: char)
    requires sep !in f
    ensures Split(f, sep) == [f]
  {
    if f != [] {
      SplitNoSeparator(f[1..], sep);
      assert [f[0]] + f[1..] == f;
    }
  }

  /** Splitting a join of separator-free pieces gives back the pieces. */
  lemma {:induction false} SplitJoin(fs: seq<string>, sep: char)
    requires |fs| >= 1
    requires forall i :: 0 <= i < |fs| ==> sep !in fs[i]
    ensures Split(Join(fs, sep), sep) == fs
  {
    if |fs| == 1 {
      SplitNoSeparator(fs[0], sep);
    } else {
      SplitJoin(fs[1..], sep);
      SplitPiece(fs[0], Join(fs[1..], sep), sep);
      assert [fs[0]] + fs[1..] == fs;
    }
  }

  /** Joining one more piece appends a separator and that piece. */
  lemma {:induction false} JoinSnoc(fs: seq<string>, y: string, sep: char)
    requires |fs| >= 1
    ensures Join(fs + [y], sep) == Join(fs, sep) + [sep] + y
  {
    if |fs| > 1 {
      JoinSnoc(fs[1..], y, sep);
      assert (fs + [y])[1..] == fs[1..] + [y];
    }
  }

  /** Adding a piece before the final empty piece of a terminated join. */
  lemma JoinTerminated(fs: seq<string>, y: string, sep: char)
    ensures Join(fs + [""], sep) + y + [sep] == Join(fs + [y] + [""], sep)
  {
    JoinSnoc(fs + [y], "", sep);
    if fs == [] {
      assert fs + [""] == [""];
      assert fs + [y] == [y];
    } else {
      JoinSnoc(fs, "", sep);
      JoinSnoc(fs, y, sep);
    }
  }

  /** A character in no piece, other than the separator, is not in the joined string. */
  lemma {:induction false} JoinAvoids(fs: seq<string>, sep: char, c: char)
    requires |fs| >= 1
    requires c != sep
    requires forall i :: 0 <= i < |fs| ==> c !in fs[i]
    ensures c !in Join(fs, sep)
  {
    if |fs| > 1 {
      JoinAvoids(fs[1..], sep, c);
    }
  }

  function DigitChar(d: nat): char
    requires d < 10
  {
    "0123456789"[d]
  }

  predicate IsDigit(c: char) {
    '0' <= c <= '9'
  }

  function DigitValue(c: char): nat
    requires IsDigit(c)
  {
    (c as int - '0' as int) as nat
  }

  lemma DigitRoundTrip(d: nat)
    requires d < 10
    ensures IsDigit(DigitChar(d)) && DigitValue(DigitChar(d)) == d
  {
  }

  /** The decimal digits of `n`, most significant first, without leading zeros. */
  function NatToString(n: nat): (r: string)
    ensures |r| >= 1
    ensures forall i :: 0 <= i < |r| ==> IsDigit(r[i])
    ensures r[0] == '0' ==> n == 0
  {
    if n < 10 then [DigitChar(n)] else NatToString(n / 10) + [DigitChar(n % 10)]
  }

  /** The value of a string of decimal digits; `None` for an empty string or a non-digit. */
  function ParseNat(s: string): Option<nat> {
    if |s| == 0 then None
    else if !IsDigit(s[|s| - 1]) then None
    else if |s| == 1 then Some(DigitValue(s[0]))
    else
      match ParseNat(s[..|s| - 1])
      case None => None
      case Some(m) => Some(m * 10 + DigitValue(s[|s| - 1]))
  }

  /** Reading back the decimal text of `n` gives `n`. */
  lemma {:induction false} ParseNatToString(n: nat)
    ensures ParseNat(NatToString(n)) == Some(n)
  {
    if n < 10 {
      DigitRoundTrip(n);
    } else {
      var s, d := NatToString(n), n % 10;
      ParseNatToString(n / 10);
      assert s[..|s| - 1] == NatToString(n / 10);
      assert s[|s| - 1] == DigitChar(d);
      DigitRoundTrip(d);
      assert n == n / 10 * 10 + d;
    }
  }
}
