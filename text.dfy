/**
 * The Java `String` operations the interpreter relies on, and Apache Ant's
 * `StringUtils.replace`, written out over `seq<char>`.
 */
module Text {
  import opened Faults
  import opened Word32

  /** `s.indexOf(c)` (or `list.indexOf(c)`): the first position of `c` in `s`, or -1. */
  function IndexOf<T(==)>(s: seq<T>, c: T): (r: int)
    ensures -1 <= r < |s|
    ensures r == -1 <==> c !in s
    ensures r >= 0 ==> s[r] == c
  {
    if |s| == 0 then -1
    else if s[0] == c then 0
    else
      var i := IndexOf(s[1..], c);
      if i < 0 then -1 else i + 1
  }

  /** No earlier position holds `c`. */
  lemma {:induction false} IndexOfFirst<T>(s: seq<T>, c: T)
    ensures forall k :: 0 <= k < IndexOf(s, c) ==> s[k] != c
  {
    if |s| > 0 && s[0] != c {
      IndexOfFirst(s[1..], c);
    }
  }

  /** `s.lastIndexOf(c)` (or `list.lastIndexOf(c)`): the last position of `c` in `s`, or -1. */
  function LastIndexOf<T(==)>(s: seq<T>, c: T): (r: int)
    ensures -1 <= r < |s|
    ensures r == -1 <==> c !in s
    ensures r >= 0 ==> s[r] == c
    ensures forall k :: r < k < |s| ==> s[k] != c
  {
    if |s| == 0 then -1
    else if s[|s| - 1] == c then |s| - 1
    else
      var i := LastIndexOf(s[..|s| - 1], c);
      assert s == s[..|s| - 1] + [s[|s| - 1]];
      i
  }

  /** `t` occurs in `s` at position `i`. */
  predicate OccursAt(s: string, t: string, i: int)
  {
    0 <= i && i + |t| <= |s| && s[i..i + |t|] == t
  }

  /** `s.indexOf(t, from)`: the first occurrence of `t` at or after `from`, or -1. */
  function Find(s: string, t: string, from: nat): (r: int)
    ensures r == -1 || (from <= r && OccursAt(s, t, r))
    ensures forall j :: from <= j && (r == -1 || j < r) ==> !OccursAt(s, t, j)
    decreases |s| - from
  {
    if from + |t| > |s| then -1
    else if s[from..from + |t|] == t then from
    else Find(s, t, from + 1)
  }

  /** `s.contains(t)`. */
  predicate Contains(s: string, t: string)
  {
    Find(s, t, 0) >= 0
  }

  /** Java's `trim`: every character up to U+0020 is whitespace. */
  predicate IsBlank(c: char) { c <= ' ' }

  /** `s` without its leading whitespace. */
  function TrimStart(s: string): string
  {
    if |s| > 0 && IsBlank(s[0]) then TrimStart(s[1..]) else s
  }

  /** `s` without its trailing whitespace. */
  function TrimEnd(s: string): string
  {
    if |s| > 0 && IsBlank(s[|s| - 1]) then TrimEnd(s[..|s| - 1]) else s
  }

  /** `s.trim()`. */
  function Trim(s: string): string
  {
    TrimEnd(TrimStart(s))
  }

  /** Trimming the front keeps a suffix, and removes exactly its leading whitespace. */
  lemma {:induction false} TrimStartSuffix(s: string)
    ensures var r := TrimStart(s);
            |r| <= |s| && r == s[|s| - |r|..] &&
            (forall k :: 0 <= k < |s| - |r| ==> IsBlank(s[k])) &&
            (|r| > 0 ==> !IsBlank(r[0]))
  {
    if |s| > 0 && IsBlank(s[0]) {
      TrimStartSuffix(s[1..]);
    }
  }

  /** Trimming the back keeps a prefix, and removes exactly its trailing whitespace. */
  lemma {:induction false} TrimEndPrefix(s: string)
    ensures var r := TrimEnd(s);
            |r| <= |s| && r == s[..|r|] &&
            (forall k :: |r| <= k < |s| ==> IsBlank(s[k])) &&
            (|r| > 0 ==> !IsBlank(r[|r| - 1]))
  {
    if |s| > 0 && IsBlank(s[|s| - 1]) {
      TrimEndPrefix(s[..|s| - 1]);
    }
  }

  /** `trim` keeps a piece of the string that starts and ends with a non-blank character. */
  lemma TrimPiece(s: string)
    ensures var i := |s| - |TrimStart(s)|;
            0 <= i <= |s| - |Trim(s)| && Trim(s) == s[i..i + |Trim(s)|]
    ensures |Trim(s)| > 0 ==> !IsBlank(Trim(s)[0]) && !IsBlank(Trim(s)[|Trim(s)| - 1])
  {
    var u := TrimStart(s);
    TrimStartSuffix(s);
    TrimEndPrefix(u);
    var i := |s| - |u|;
    assert Trim(s) == u[..|Trim(s)|] == s[i..i + |Trim(s)|];
  }

  /** The pieces of `s` between the occurrences of `c`, empty pieces included. */
  function Pieces(s: string, c: char): (r: seq<string>)
    ensures |r| >= 1
    ensures c !in s ==> r == [s]
    decreases |s|
  {
    var i := IndexOf(s, c);
    if i < 0 then [s] else [s[..i]] + Pieces(s[i + 1..], c)
  }

  /** `ps` without its trailing empty strings. */
  function DropTrailingEmpty(ps: seq<string>): (r: seq<string>)
    ensures |r| <= |ps| && r == ps[..|r|]
    ensures forall k :: |r| <= k < |ps| ==> ps[k] == ""
    ensures |r| > 0 ==> r[|r| - 1] != ""
  {
    if |ps| > 0 && ps[|ps| - 1] == "" then DropTrailingEmpty(ps[..|ps| - 1]) else ps
  }

  /**
   * `s.split(" ")` for a one-character separator: the pieces between the
   * separators with trailing empty pieces dropped, or `[s]` when `s` holds
   * no separator at all.
   */
  function Split(s: string, c: char): (r: seq<string>)
    ensures c !in s ==> r == [s]
  {
    if c !in s then [s] else DropTrailingEmpty(Pieces(s, c))
  }

  /**
   * Ant's `StringUtils.replace(s, from, to)`: every occurrence of `from`,
   * found left to right without overlap, becomes `to`.  With an empty `from`
   * Ant's loop never ends, so `from` must not be empty.
   */
  function ReplaceAll(s: string, from: string, to: string): (r: string)
    requires |from| > 0
    ensures !Contains(s, from) ==> r == s
    decreases |s|
  {
    var i := Find(s, from, 0);
    if i < 0 then s else s[..i] + to + ReplaceAll(s[i + |from|..], from, to)
  }

  /** `t` with every comma removed, as `StringUtils.replace(t, ",", "")` does. */
  function RemoveCommas(t: string): string
  {
    ReplaceAll(t, ",", "")
  }

  predicate IsDigit(c: char) { '0' <= c <= '9' }

  predicate AllDigits(s: string) { forall k :: 0 <= k < |s| ==> IsDigit(s[k]) }

  /** The Java pattern `-?(0|[1-9]\d*)` matched against the whole of `s`. */
  predicate IsDecimalLiteral(s: string)
  {
    var u := if |s| > 0 && s[0] == '-' then s[1..] else s;
    u == "0" || (|u| > 0 && '1' <= u[0] <= '9' && AllDigits(u))
  }

  /** The number written by a string of decimal digits. */
  function DigitsValue(d: string): nat
    requires AllDigits(d)
  {
    if |d| == 0 then 0
    else 10 * DigitsValue(d[..|d| - 1]) + ((d[|d| - 1] as int) - ('0' as int))
  }

  /**
   * `Integer.parseInt(s)`: an optional `+` or `-` followed by at least one
   * decimal digit, whose value must fit in an `int`; `None` where Java
   * throws `NumberFormatException`.
   */
  function ParseInt(s: string): (r: Option<i32>)
    ensures r.Some? ==> |s| > 0
    ensures IsDecimalLiteral(s) && r.Some? ==> r.value as int == (if s[0] == '-' then -1 else 1) * DigitsValue(if s[0] == '-' then s[1..] else s)
  {
    if |s| == 0 then None
    else
      var signed := s[0] == '-' || s[0] == '+';
      var d := if signed then s[1..] else s;
      if |d| == 0 || !AllDigits(d) then None
      else
        var m: int := DigitsValue(d);
        var v := if s[0] == '-' then -m else m;
        if MIN_INT <= v <= MAX_INT then Some(v) else None
  }

  function DigitChar(d: int): (c: char)
    requires 0 <= d < 10
    ensures IsDigit(c) && (c as int) - ('0' as int) == d
  {
    (('0' as int) + d) as char
  }

  /** The decimal digits of `n`, without leading zeros. */
  function NatDigits(n: nat): (r: string)
    ensures |r| > 0 && AllDigits(r)
    ensures r[0] == '0' <==> n == 0
  {
    if n < 10 then [DigitChar(n)] else NatDigits(n / 10) + [DigitChar(n % 10)]
  }

  /** `Integer.toString(n)`, which `StringBuilder.append(int)` uses. */
  function Decimal(n: int): string
  {
    if n < 0 then "-" + NatDigits(-n) else NatDigits(n)
  }

  // ---------------------------------------------------------------------
  // Properties

  /** Replacing a name by itself changes nothing. */
  lemma {:induction false} ReplaceBySelf(s: string, k: string)
    requires |k| > 0
    ensures ReplaceAll(s, k, k) == s
    decreases |s|
  {
    var i := Find(s, k, 0);
    if i >= 0 {
      ReplaceBySelf(s[i + |k|..], k);
      assert s == s[..i] + s[i..i + |k|] + s[i + |k|..];
    }
  }

  /** The characters of `t` other than `c`, in order. */
  function Drop(t: string, c: char): (r: string)
    ensures c !in r
  {
    if |t| == 0 then "" else (if t[0] == c then "" else [t[0]]) + Drop(t[1..], c)
  }

  lemma {:induction false} DropAppend(a: string, b: string, c: char)
    ensures Drop(a + b, c) == Drop(a, c) + Drop(b, c)
  {
    if |a| > 0 {
      DropAppend(a[1..], b, c);
      assert (a + b)[1..] == a[1..] + b;
    } else {
      assert a + b == b;
    }
  }

  lemma {:induction false} DropAbsent(t: string, c: char)
    requires c !in t
    ensures Drop(t, c) == t
  {
    if |t| > 0 {
      DropAbsent(t[1..], c);
    }
  }

  /** Where `indexOf(",")` stops: at the first comma, or at -1 when there is none. */
  lemma FirstComma(t: string)
    ensures var i := Find(t, ",", 0);
            (i < 0 ==> ',' !in t) && (i >= 0 ==> i < |t| && t[i] == ',' && ',' !in t[..i])
  {
    var i := Find(t, ",", 0);
    forall j | 0 <= j < |t| && (i < 0 || j < i)
      ensures t[j] != ','
    {
      assert !OccursAt(t, ",", j);
      assert t[j..j + 1] == [t[j]];
    }
    if i >= 0 {
      assert t[i..i + 1] == ",";
    }
  }

  /** Removing commas deletes every comma and keeps every other character in order. */
  lemma {:induction false} RemoveCommasDrops(t: string)
    ensures RemoveCommas(t) == Drop(t, ',')
    decreases |t|
  {
    var i := Find(t, ",", 0);
    FirstComma(t);
    if i < 0 {
      DropAbsent(t, ',');
    } else {
      RemoveCommasDrops(t[i + 1..]);
      DropAbsent(t[..i], ',');
      assert t == t[..i] + [','] + t[i + 1..];
      DropAppend(t[..i] + [','], t[i + 1..], ',');
      DropAppend(t[..i], [','], ',');
    }
  }

  lemma {:induction false} NatDigitsValue(n: nat)
    ensures DigitsValue(NatDigits(n)) == n
  {
    if n >= 10 {
      NatDigitsValue(n / 10);
      var d := NatDigits(n);
      assert d[..|d| - 1] == NatDigits(n / 10);
    }
  }

  /** Digits without a sign whose value fits in an `int` parse to that value. */
  lemma ParseUnsigned(d: string)
    requires |d| > 0 && AllDigits(d) && DigitsValue(d) <= MAX_INT
    ensures ParseInt(d) == Some(DigitsValue(d))
  {
    assert d[0] != '-' && d[0] != '+';
  }

  /** A minus sign before digits whose value is at most 2^31 parses to the negated value. */
  lemma ParseNegative(d: string)
    requires |d| > 0 && AllDigits(d) && DigitsValue(d) <= -MIN_INT
    ensures ParseInt("-" + d).Some? && ParseInt("-" + d).value == -(DigitsValue(d) as int)
  {
    var s := "-" + d;
    assert s[0] == '-' && s[1..] == d;
  }

  /** What `Integer.toString` writes matches the pattern `-?(0|[1-9]\d*)`. */
  lemma DecimalIsLiteral(n: int)
    ensures IsDecimalLiteral(Decimal(n))
  {
    if n < 0 {
      assert Decimal(n)[1..] == NatDigits(-n);
    }
  }

  /** The first `c` of `a + [c] + b` is the one after `a` when `a` holds none. */
  lemma {:induction false} IndexOfAfter<T>(a: seq<T>, c: T, b: seq<T>)
    requires c !in a
    ensures IndexOf(a + [c] + b, c) == |a|
  {
    if |a| > 0 {
      IndexOfAfter(a[1..], c, b);
      assert (a + [c] + b)[1..] == a[1..] + [c] + b;
    }
  }

  /** `x`, then `c`, then `y`: the pieces sit where they were put. */
  lemma Around<T>(x: seq<T>, c: T, y: seq<T>)
    ensures (x + [c] + y)[..|x|] == x && (x + [c] + y)[|x|] == c && (x + [c] + y)[|x| + 1..] == y
  {
  }

  /** A value found neither before, at, nor after position `n` is not in `s`. */
  lemma NotAround<T>(s: seq<T>, n: int, c: T)
    requires 0 <= n < |s| && c != s[n] && c !in s[..n] && c !in s[n + 1..]
    ensures c !in s
  {
    assert s == s[..n] + [s[n]] + s[n + 1..];
  }

  /** `c` at `n` with no `c` before it is the first `c`. */
  lemma IndexOfAt<T>(s: seq<T>, n: int, c: T)
    requires 0 <= n < |s| && s[n] == c && c !in s[..n]
    ensures IndexOf(s, c) == n
  {
    assert s == s[..n] + [c] + s[n + 1..];
    IndexOfAfter(s[..n], c, s[n + 1..]);
  }

  /** A character other than a digit after the first one rules out a decimal literal. */
  lemma NonDigitNotLiteral(s: string, n: int)
    requires 1 <= n < |s| && !IsDigit(s[n])
    ensures !IsDecimalLiteral(s)
  {
    assert s[1..][n - 1] == s[n];
  }

  /** A piece free of the separator, then the separator, comes off the front. */
  lemma PiecesFront(a: string, c: char, rest: string)
    requires c !in a
    ensures Pieces(a + [c] + rest, c) == [a] + Pieces(rest, c)
  {
    var s := a + [c] + rest;
    IndexOfAfter(a, c, rest);
    assert s[..|a|] == a && s[|a| + 1..] == rest;
  }

  /** Two pieces around one separator split apart. */
  lemma SplitTwo(a: string, b: string, c: char)
    requires c !in a && c !in b && |b| > 0
    ensures Split(a + [c] + b, c) == [a, b]
  {
    PiecesFront(a, c, b);
    var ps := Pieces(a + [c] + b, c);
    assert ps == [a, b];
    assert ps[|ps| - 1] != "";
    assert (a + [c] + b)[|a|] == c;
  }

  /** Three pieces around two separators split apart. */
  lemma SplitThree(a: string, b: string, d: string, c: char)
    requires c !in a && c !in b && c !in d && |d| > 0
    ensures Split(a + [c] + b + [c] + d, c) == [a, b, d]
  {
    var rest := b + [c] + d;
    var s := a + [c] + b + [c] + d;
    assert s == a + [c] + rest;
    assert Pieces(s, c) == [a, b, d] by {
      PiecesFront(a, c, rest);
      PiecesFront(b, c, d);
    }
    assert s[|a|] == c;
  }

  /** The digits of a number hold no sign. */
  lemma DigitsUnsigned(d: string)
    requires AllDigits(d)
    ensures '+' !in d && '-' !in d
  {
  }

  /** `Integer.toString` writes digits and at most a minus sign: never a space or a colon. */
  lemma DecimalChars(n: int)
    ensures |Decimal(n)| > 0 && ' ' !in Decimal(n) && ':' !in Decimal(n)
  {
    if n < 0 {
      assert Decimal(n) == "-" + NatDigits(-n);
    }
  }

  /** `Integer.parseInt` reads back what `Integer.toString` writes. */
  lemma DecimalRoundTrip(n: i32)
    ensures ParseInt(Decimal(n)) == Some(n)
  {
    if n < 0 {
      var m: nat := -(n as int);
      NatDigitsValue(m);
      ParseNegative(NatDigits(m));
    } else {
      NatDigitsValue(n);
      ParseUnsigned(NatDigits(n));
    }
  }
}
