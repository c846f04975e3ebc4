/**
 * The few pieces of java.lang.String that the analysed code relies on, with
 * Java's own edge cases: trim() strips every character up to U+0020 at both
 * ends, split() on a one-character literal drops trailing empty pieces but
 * returns the input itself when the separator never occurs, and
 * String.valueOf(int) writes decimal digits with a leading '-'.
 */
module JavaStrings {

  /** Java's trim(): whitespace is every character not above the space. */
  predicate IsTrimmable(c: char) { c <= ' ' }

  function TrimStart(s: string): string
  {
    if s != [] && IsTrimmable(s[0]) then TrimStart(s[1..]) else s
  }

  /** TrimStart drops the longest whitespace prefix. */
  lemma {:induction false} TrimStartFacts(s: string)
    ensures var r := TrimStart(s);
      && |r| <= |s| && r == s[|s| - |r|..]
      && (r != [] ==> !IsTrimmable(r[0]))
      && (forall i :: 0 <= i < |s| - |r| ==> IsTrimmable(s[i]))
  {
    if s != [] && IsTrimmable(s[0]) {
      TrimStartFacts(s[1..]);
      var r := TrimStart(s);
      forall i | 0 <= i < |s| - |r| ensures IsTrimmable(s[i]) {
        if i > 0 {
          assert s[i] == s[1..][i - 1];
        }
      }
    }
  }

  function TrimEnd(s: string): string
  {
    if s != [] && IsTrimmable(s[|s| - 1]) then TrimEnd(s[..|s| - 1]) else s
  }

  /** TrimEnd drops the longest whitespace suffix. */
  lemma {:induction false} TrimEndFacts(s: string)
    ensures var r := TrimEnd(s);
      && |r| <= |s| && r == s[..|r|]
      && (r != [] ==> !IsTrimmable(r[|r| - 1]))
      && (forall i :: |r| <= i < |s| ==> IsTrimmable(s[i]))
  {
    if s != [] && IsTrimmable(s[|s| - 1]) {
      TrimEndFacts(s[..|s| - 1]);
      var r := TrimEnd(s);
      forall i | |r| <= i < |s| ensures IsTrimmable(s[i]) {
        if i < |s| - 1 {
          assert s[i] == s[..|s| - 1][i];
        }
      }
    }
  }

  /** String.trim(). */
  function Trim(s: string): (r: string)
  {
    TrimEnd(TrimStart(s))
  }

  /** Where trim() cuts: the result is s[i..j], everything before i and from j on being whitespace. */
  lemma TrimBounds(s: string) returns (i: nat, j: nat)
    ensures i <= j <= |s| && Trim(s) == s[i..j]
    ensures forall k :: 0 <= k < i ==> IsTrimmable(s[k])
    ensures forall k :: j <= k < |s| ==> IsTrimmable(s[k])
  {
    var a := TrimStart(s);
    TrimStartFacts(s);
    i := |s| - |a|;
    var b := TrimEnd(a);
    TrimEndFacts(a);
    j := i + |b|;
    assert b == s[i..j];
    forall k | j <= k < |s| ensures IsTrimmable(s[k]) {
      assert s[k] == a[k - i];
    }
  }

  /** What trim() promises: the slice of the input left once the runs of whitespace on
      either side are cut off, whole runs, so that a non-empty result starts and ends with
      a character above ' '. */
  lemma TrimIsMaximalSlice(s: string)
    ensures exists i, j :: (0 <= i <= j <= |s| && Trim(s) == s[i..j]
      && (forall k :: 0 <= k < i ==> IsTrimmable(s[k]))
      && (forall k :: j <= k < |s| ==> IsTrimmable(s[k]))
      && (i < j ==> !IsTrimmable(s[i]) && !IsTrimmable(s[j - 1])))
  {
    var i, j := TrimBounds(s);
    TrimEnds(s);
    if i < j {
      assert s[i] == Trim(s)[0] && s[j - 1] == Trim(s)[|Trim(s)| - 1];
    }
  }

  /** ... and neither end of the slice is whitespace. */
  lemma {:induction false} TrimEnds(s: string)
    ensures Trim(s) != [] ==> !IsTrimmable(Trim(s)[0]) && !IsTrimmable(Trim(s)[|Trim(s)| - 1])
  {
    var a := TrimStart(s);
    TrimStartFacts(s);
    TrimEndFacts(a);
    var b := TrimEnd(a);
    if b != [] {
      assert b[0] == a[0];
    }
  }

  /** Trimming twice is trimming once (the source trims the parent list twice). */
  lemma TrimIdempotent(s: string)
    ensures Trim(Trim(s)) == Trim(s)
  {
    var t := Trim(s);
    TrimEnds(s);
    TrimStartFacts(t);
    TrimEndFacts(TrimStart(t));
    if t != [] {
      assert TrimStart(t) == t;
      assert TrimEnd(t) == t;
    }
  }

  function StartsWith(s: string, prefix: string): bool
  {
    |prefix| <= |s| && s[..|prefix|] == prefix
  }

  /** String.contains: some suffix of s starts with part. */
  predicate Contains(s: string, part: string)
  {
    StartsWith(s, part) || (s != [] && Contains(s[1..], part))
  }

  function ToLowerChar(c: char): char
  {
    if 'A' <= c <= 'Z' then (c as int - 'A' as int + 'a' as int) as char else c
  }

  /** String.toLowerCase() restricted to the ASCII letters. */
  function ToLower(s: string): (r: string)
    ensures |r| == |s|
    ensures forall i :: 0 <= i < |s| ==> r[i] == ToLowerChar(s[i])
  {
    if s == [] then [] else [ToLowerChar(s[0])] + ToLower(s[1..])
  }

  /** Every piece between separators, empty ones included: |Pieces| is one
      more than the number of separators. */
  function Pieces(s: string, sep: char): (r: seq<string>)
    ensures |r| >= 1
  {
    if s == [] then [""]
    else
      var rest := Pieces(s[1..], sep);
      if s[0] == sep then [""] + rest else [[s[0]] + rest[0]] + rest[1..]
  }

  /** No piece holds the separator. */
  lemma {:induction false} PiecesHaveNoSeparator(s: string, sep: char)
    ensures forall i :: 0 <= i < |Pieces(s, sep)| ==> sep !in Pieces(s, sep)[i]
  {
    if s != [] {
      PiecesHaveNoSeparator(s[1..], sep);
    }
  }

  function Join(parts: seq<string>, sep: char): string
  {
    if parts == [] then "" else if |parts| == 1 then parts[0] else parts[0] + [sep] + Join(parts[1..], sep)
  }

  /** Cutting at every separator loses nothing. */
  lemma {:induction false} JoinPieces(s: string, sep: char)
    ensures Join(Pieces(s, sep), sep) == s
  {
    if s != [] {
      JoinPieces(s[1..], sep);
      var rest := Pieces(s[1..], sep);
      assert s == [s[0]] + s[1..];
      if s[0] == sep {
        assert ([""] + rest)[1..] == rest;
      } else {
        JoinExtendsFirst(s[0], rest, sep);
      }
    }
  }

  /** Prefixing the first part prefixes the joined string. */
  lemma JoinExtendsFirst(c: char, parts: seq<string>, sep: char)
    requires |parts| >= 1
    ensures Join([[c] + parts[0]] + parts[1..], sep) == [c] + Join(parts, sep)
  {
    var q := [[c] + parts[0]] + parts[1..];
    assert q[1..] == parts[1..];
  }

  /** The first piece is everything before the first separator. */
  lemma {:induction false} FirstPiece(s: string, sep: char, i: nat)
    requires i < |s| && s[i] == sep && sep !in s[..i]
    ensures |Pieces(s, sep)| >= 2 && Pieces(s, sep)[0] == s[..i]
  {
    if i > 0 {
      assert s[1..][..i - 1] == s[..i][1..];
      FirstPiece(s[1..], sep, i - 1);
    }
  }

  /** A separator makes at least two pieces, and the string starts with the
      first two pieces joined by it, followed by nothing or another separator. */
  lemma LeadingPieces(s: string, sep: char)
    requires sep in s
    ensures var p := Pieces(s, sep);
      && |p| >= 2
      && exists rest :: s == p[0] + [sep] + p[1] + rest && (rest == [] || rest[0] == sep)
  {
    var p := Pieces(s, sep);
    JoinPieces(s, sep);
    PiecesHaveNoSeparator(s, sep);
    var tail := p[1..];
    assert Join(p, sep) == p[0] + [sep] + Join(tail, sep);
    if |tail| == 1 {
      assert s == p[0] + [sep] + p[1] + [];
    } else {
      var rest := [sep] + Join(tail[1..], sep);
      assert Join(tail, sep) == p[1] + rest;
      assert s == p[0] + [sep] + p[1] + rest;
    }
  }

  /** A string with no separator is a single piece. */
  lemma {:induction false} NoSeparatorOnePiece(s: string, sep: char)
    requires sep !in s
    ensures Pieces(s, sep) == [s]
  {
    if s != [] {
      assert sep !in s[1..] by {
        forall k | 0 <= k < |s| - 1 ensures s[1..][k] != sep { assert s[1..][k] == s[k + 1]; }
      }
      NoSeparatorOnePiece(s[1..], sep);
      assert s[0] != sep;
      assert [s[0]] + s[1..] == s;
    }
  }

  /** The last piece is empty exactly when the string ends with the separator. */
  lemma {:induction false} LastPieceEmpty(s: string, sep: char)
    ensures var p := Pieces(s, sep); (p[|p| - 1] == "") <==> (s == [] || s[|s| - 1] == sep)
  {
    if s != [] {
      LastPieceEmpty(s[1..], sep);
    }
  }

  function DropTrailingEmpty(parts: seq<string>): seq<string>
  {
    if parts == [] then []
    else if parts[|parts| - 1] == "" then DropTrailingEmpty(parts[..|parts| - 1])
    else parts
  }

  /** Only a run of empty strings at the end is dropped. */
  lemma {:induction false} DropTrailingEmptyFacts(parts: seq<string>)
    ensures var r := DropTrailingEmpty(parts);
      && |r| <= |parts| && r == parts[..|r|]
      && (r == [] || r[|r| - 1] != "")
      && (forall i :: |r| <= i < |parts| ==> parts[i] == "")
  {
    if parts != [] && parts[|parts| - 1] == "" {
      var n := |parts| - 1;
      DropTrailingEmptyFacts(parts[..n]);
      var r := DropTrailingEmpty(parts);
      assert parts[..n][..|r|] == parts[..|r|];
      forall i | |r| <= i < |parts| ensures parts[i] == "" {
        if i < n {
          assert parts[i] == parts[..n][i];
        }
      }
    }
  }

  /** String.split on a one-character separator, with limit 0: the input
      itself when the separator does not occur, otherwise every piece with
      the trailing empty ones removed. */
  function Split(s: string, sep: char): (r: seq<string>)
  {
    if sep !in s then [s] else DropTrailingEmpty(Pieces(s, sep))
  }

  /** The pieces split keeps are the leading pieces up to the last non-empty one: only
      empty pieces are dropped, and when the separator occurs the last piece kept is not
      empty; without the separator the result is the input itself. */
  lemma SplitIsPiecesPrefix(s: string, sep: char)
    ensures |Split(s, sep)| <= |Pieces(s, sep)| && Split(s, sep) == Pieces(s, sep)[..|Split(s, sep)|]
    ensures forall i :: |Split(s, sep)| <= i < |Pieces(s, sep)| ==> Pieces(s, sep)[i] == ""
    ensures sep in s ==> Split(s, sep) == [] || Split(s, sep)[|Split(s, sep)| - 1] != ""
    ensures sep !in s ==> Split(s, sep) == [s]
  {
    DropTrailingEmptyFacts(Pieces(s, sep));
    if sep !in s {
      NoSeparatorOnePiece(s, sep);
    }
  }

  /** A string that does not end in the separator keeps all its pieces. */
  lemma SplitKeepsAllPieces(s: string, sep: char)
    requires s != [] && s[|s| - 1] != sep
    ensures Split(s, sep) == Pieces(s, sep)
  {
    LastPieceEmpty(s, sep);
    if sep !in s {
      NoSeparatorOnePiece(s, sep);
    }
  }

  function DigitChar(d: nat): char
    requires d < 10
  {
    "0123456789"[d]
  }

  function DigitValue(c: char): nat
  {
    if '0' <= c <= '9' then c as int - '0' as int else 0
  }

  predicate IsDigit(c: char) { '0' <= c <= '9' }

  /** Decimal digits of a non-negative number, no leading zeros. */
  function NatToString(n: nat): string
  {
    if n < 10 then [DigitChar(n)] else NatToString(n / 10) + [DigitChar(n % 10)]
  }

  /** The decimal form is a non-empty string of digits. */
  lemma {:induction false} NatToStringDigits(n: nat)
    ensures |NatToString(n)| >= 1
    ensures forall i :: 0 <= i < |NatToString(n)| ==> IsDigit(NatToString(n)[i])
  {
    if n >= 10 {
      NatToStringDigits(n / 10);
      var s := NatToString(n);
      assert s == NatToString(n / 10) + [DigitChar(n % 10)];
      forall i | 0 <= i < |s| ensures IsDigit(s[i]) {
        if i < |s| - 1 {
          assert s[i] == NatToString(n / 10)[i];
        }
      }
    }
  }

  /** String.valueOf(int). */
  function IntToString(i: int): string
  {
    if i < 0 then "-" + NatToString(-i) else NatToString(i)
  }

  /** Reads back a string of decimal digits. */
  function ParseNat(s: string): nat
  {
    if s == [] then 0 else 10 * ParseNat(s[..|s| - 1]) + DigitValue(s[|s| - 1])
  }

  lemma {:induction false} ParseNatToString(n: nat)
    ensures ParseNat(NatToString(n)) == n
  {
    if n >= 10 {
      ParseNatToString(n / 10);
      var s := NatToString(n);
      assert s[..|s| - 1] == NatToString(n / 10);
    }
  }
}
