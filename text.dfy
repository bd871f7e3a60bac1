/**
 * String helpers shared by the schema setters, the request sanitizers and the
 * library stand-ins: whitespace trimming, ASCII lower-casing, JavaScript's
 * `String.prototype.split` on one separator character, its inverse `join`,
 * and decimal rendering and parsing of natural numbers.
 */
module Text {
  import opened Wrappers

  /** The whitespace that `trim()` strips (the ASCII part of JavaScript's set). */
  predicate IsSpace(c: char) {
    c == ' ' || c == '\t' || c == '\n' || c == '\r' || c as int == 0x0B || c as int == 0x0C
  }

  predicate AllSpace(s: string) {
    forall i :: 0 <= i < |s| ==> IsSpace(s[i])
  }

  /** Drops leading whitespace; what is left does not start with whitespace. */
  function TrimStart(s: string): (r: string)
    ensures |r| <= |s|
    ensures r == [] || !IsSpace(r[0])
    decreases |s|
  {
    if s != [] && IsSpace(s[0]) then TrimStart(s[1..]) else s
  }

  /** Drops trailing whitespace; what is left is a prefix that does not end with whitespace. */
  function TrimEnd(s: string): (r: string)
    ensures |r| <= |s| && r == s[..|r|]
    ensures r == [] || !IsSpace(r[|r| - 1])
    decreases |s|
  {
    if s != [] && IsSpace(s[|s| - 1]) then TrimEnd(s[..|s| - 1]) else s
  }

  /** `String.prototype.trim`: neither end of the result is whitespace. */
  function Trim(s: string): (r: string)
    ensures r == [] || (!IsSpace(r[0]) && !IsSpace(r[|r| - 1]))
    ensures |r| <= |s|
  {
    TrimEnd(TrimStart(s))
  }

  /** Trimming twice is trimming once. */
  lemma TrimIdempotent(s: string)
    ensures Trim(Trim(s)) == Trim(s)
  {
    var r := Trim(s);
    assert TrimStart(r) == r;
    assert TrimEnd(r) == r;
  }

  lemma {:induction false} TrimStartEmpty(s: string)
    ensures TrimStart(s) == [] <==> AllSpace(s)
    decreases |s|
  {
    if s != [] {
      TrimStartEmpty(s[1..]);
      assert AllSpace(s) <==> IsSpace(s[0]) && AllSpace(s[1..]);
    }
  }

  lemma {:induction false} TrimEndEmpty(s: string)
    ensures TrimEnd(s) == [] <==> AllSpace(s)
    decreases |s|
  {
    if s != [] {
      var n := |s| - 1;
      TrimEndEmpty(s[..n]);
      assert AllSpace(s) <==> IsSpace(s[n]) && AllSpace(s[..n]);
    }
  }

  /** A string trims to the empty string exactly when it is all whitespace. */
  lemma TrimEmptyIff(s: string)
    ensures Trim(s) == [] <==> AllSpace(s)
  {
    var t := TrimStart(s);
    TrimStartEmpty(s);
    TrimEndEmpty(t);
    assert t != [] ==> !AllSpace(t);
  }

  lemma {:induction false} TrimStartSpaces(pad: string, x: string)
    requires AllSpace(pad)
    ensures TrimStart(pad + x) == TrimStart(x)
    decreases |pad|
  {
    if pad != [] {
      assert (pad + x)[0] == pad[0] && (pad + x)[1..] == pad[1..] + x;
      assert AllSpace(pad[1..]) by {
        forall i | 0 <= i < |pad| - 1 ensures IsSpace(pad[1..][i]) {
          assert pad[1..][i] == pad[i + 1];
        }
      }
      TrimStartSpaces(pad[1..], x);
    } else {
      assert pad + x == x;
    }
  }

  lemma {:induction false} TrimEndSpaces(y: string, pad: string)
    requires AllSpace(pad)
    ensures TrimEnd(y + pad) == TrimEnd(y)
    decreases |pad|
  {
    if pad != [] {
      var n := |pad| - 1;
      assert (y + pad)[|y + pad| - 1] == pad[n] && (y + pad)[..|y + pad| - 1] == y + pad[..n];
      assert AllSpace(pad[..n]) by {
        forall i | 0 <= i < n ensures IsSpace(pad[..n][i]) {
          assert pad[..n][i] == pad[i];
        }
      }
      TrimEndSpaces(y, pad[..n]);
    } else {
      assert y + pad == y;
    }
  }

  lemma {:induction false} TrimStartAppend(s: string, u: string)
    requires !AllSpace(s)
    ensures TrimStart(s + u) == TrimStart(s) + u
    decreases |s|
  {
    if IsSpace(s[0]) {
      var i :| 0 <= i < |s| && !IsSpace(s[i]);
      assert s[1..][i - 1] == s[i];
      assert (s + u)[1..] == s[1..] + u;
      TrimStartAppend(s[1..], u);
    }
  }

  /** Whitespace added on either side of a string is exactly what `trim()` takes off again. */
  lemma TrimPadded(s: string, left: string, right: string)
    requires AllSpace(left) && AllSpace(right)
    ensures Trim(left + s + right) == Trim(s)
  {
    assert left + s + right == left + (s + right);
    TrimStartSpaces(left, s + right);
    TrimEmptyIff(s);
    if AllSpace(s) {
      assert AllSpace(s + right) by {
        forall i | 0 <= i < |s + right|
          ensures IsSpace((s + right)[i])
        {
          if i >= |s| {
            assert (s + right)[i] == right[i - |s|];
          }
        }
      }
      TrimStartEmpty(s + right);
    } else {
      TrimStartAppend(s, right);
      TrimEndSpaces(TrimStart(s), right);
    }
  }

  /** ASCII lower-casing of one character. */
  function LowerChar(c: char): char {
    if 'A' <= c <= 'Z' then (c as int + 32) as char else c
  }

  /** `String.prototype.toLowerCase` on the ASCII letters. */
  function ToLower(s: string): (r: string)
    ensures |r| == |s|
    ensures forall i :: 0 <= i < |s| ==> r[i] == LowerChar(s[i])
    decreases |s|
  {
    if s == [] then [] else [LowerChar(s[0])] + ToLower(s[1..])
  }

  /** Lower-casing twice is lower-casing once. */
  lemma ToLowerIdempotent(s: string)
    ensures ToLower(ToLower(s)) == ToLower(s)
  {
  }

  lemma {:induction false} TrimStartLower(s: string)
    ensures TrimStart(ToLower(s)) == ToLower(TrimStart(s))
    decreases |s|
  {
    if s != [] {
      assert ToLower(s)[1..] == ToLower(s[1..]);
      if IsSpace(s[0]) {
        TrimStartLower(s[1..]);
      }
    }
  }

  lemma {:induction false} TrimEndLower(s: string)
    ensures TrimEnd(ToLower(s)) == ToLower(TrimEnd(s))
    decreases |s|
  {
    if s != [] {
      var n := |s| - 1;
      assert ToLower(s)[..n] == ToLower(s[..n]);
      if IsSpace(s[n]) {
        TrimEndLower(s[..n]);
      }
    }
  }

  /** Trimming and lower-casing commute, so the order of the two schema setters does not matter. */
  lemma TrimLowerCommute(s: string)
    ensures Trim(ToLower(s)) == ToLower(Trim(s))
  {
    TrimStartLower(s);
    TrimEndLower(TrimStart(s));
  }

  /** JavaScript's `s.split(d)` for a one-character separator: never empty, keeps empty pieces. */
  function Split(s: string, d: char): (parts: seq<string>)
    ensures |parts| >= 1
    decreases |s|
  {
    if s == [] then [[]]
    else
      var rest := Split(s[1..], d);
      if s[0] == d then [[]] + rest else [[s[0]] + rest[0]] + rest[1..]
  }

  /** There is a second piece exactly when the separator occurs. */
  lemma {:induction false} SplitMany(s: string, d: char)
    ensures |Split(s, d)| >= 2 <==> d in s
    decreases |s|
  {
    if s != [] {
      SplitMany(s[1..], d);
      assert d in s <==> s[0] == d || d in s[1..];
    }
  }

  /** `parts.join(d)`. */
  function Join(parts: seq<string>, d: char): string
    requires |parts| >= 1
    decreases |parts|
  {
    if |parts| == 1 then parts[0] else parts[0] + [d] + Join(parts[1..], d)
  }

  /** A separator-free prefix becomes part of the first piece. */
  lemma {:induction false} SplitWord(w: string, rest: string, d: char)
    requires d !in w
    ensures Split(w + rest, d) == [w + Split(rest, d)[0]] + Split(rest, d)[1..]
    decreases |w|
  {
    var parts := Split(rest, d);
    if w == [] {
      assert w + rest == rest;
      assert w + parts[0] == parts[0];
      assert [parts[0]] + parts[1..] == parts;
    } else {
      SplitWord(w[1..], rest, d);
      assert (w + rest)[1..] == w[1..] + rest;
      assert [w[0]] + (w[1..] + Split(rest, d)[0]) == w + Split(rest, d)[0];
    }
  }

  /** Splitting a join of separator-free pieces gives the pieces back. */
  lemma {:induction false} SplitJoin(parts: seq<string>, d: char)
    requires |parts| >= 1
    requires forall i :: 0 <= i < |parts| ==> d !in parts[i]
    ensures Split(Join(parts, d), d) == parts
    decreases |parts|
  {
    if |parts| == 1 {
      SplitWord(parts[0], [], d);
      assert parts[0] + [] == parts[0];
    } else {
      var tail := Join(parts[1..], d);
      SplitJoin(parts[1..], d);
      assert ([d] + tail)[1..] == tail;
      var pieces := Split([d] + tail, d);
      assert pieces == [[]] + parts[1..];
      SplitWord(parts[0], [d] + tail, d);
      assert Join(parts, d) == parts[0] + ([d] + tail);
      assert pieces[0] == [] && pieces[1..] == parts[1..];
      assert parts[0] + pieces[0] == parts[0];
      assert parts == [parts[0]] + parts[1..];
    }
  }

  /** A character that is neither the separator nor in any piece is not in the join. */
  lemma {:induction false} JoinAvoids(parts: seq<string>, d: char, c: char)
    requires |parts| >= 1 && c != d
    requires forall i :: 0 <= i < |parts| ==> c !in parts[i]
    ensures c !in Join(parts, d)
    decreases |parts|
  {
    if |parts| > 1 {
      JoinAvoids(parts[1..], d, c);
    }
  }

  /** The text before and after the first occurrence of `d`, if there is one. */
  function SplitFirst(s: string, d: char): Option<(string, string)>
    decreases |s|
  {
    if s == [] then None
    else if s[0] == d then Some(([], s[1..]))
    else match SplitFirst(s[1..], d)
      case None => None
      case Some(p) => Some(([s[0]] + p.0, p.1))
  }

  lemma {:induction false} SplitFirstAt(w: string, rest: string, d: char)
    requires d !in w
    ensures SplitFirst(w + [d] + rest, d) == Some((w, rest))
    decreases |w|
  {
    if w == [] {
      assert w + [d] + rest == [d] + rest;
    } else {
      SplitFirstAt(w[1..], rest, d);
      assert (w + [d] + rest)[1..] == w[1..] + [d] + rest;
      assert [w[0]] + w[1..] == w;
    }
  }

  predicate IsDigit(c: char) {
    '0' <= c <= '9'
  }

  predicate AllDigits(s: string) {
    forall i :: 0 <= i < |s| ==> IsDigit(s[i])
  }

  function DigitChar(k: nat): (c: char)
    requires k < 10
    ensures IsDigit(c)
  {
    ('0' as int + k) as char
  }

  function DigitValue(c: char): nat
    requires IsDigit(c)
  {
    c as int - '0' as int
  }

  /** Decimal rendering of a natural number; it uses digits only. */
  function NatToString(n: nat): (r: string)
    ensures r != [] && AllDigits(r)
    decreases n
  {
    if n < 10 then [DigitChar(n)] else NatToString(n / 10) + [DigitChar(n % 10)]
  }

  function DigitsValue(s: string): nat
    requires AllDigits(s)
    decreases |s|
  {
    if s == [] then 0 else DigitsValue(s[..|s| - 1]) * 10 + DigitValue(s[|s| - 1])
  }

  /** Decimal parsing: defined exactly on the non-empty digit strings. */
  function ParseNat(s: string): (r: Option<nat>)
    ensures r.Some? <==> s != [] && AllDigits(s)
  {
    if s != [] && AllDigits(s) then Some(DigitsValue(s)) else None
  }

  lemma {:induction false} DigitsValueOfNat(n: nat)
    ensures DigitsValue(NatToString(n)) == n
    decreases n
  {
    if n >= 10 {
      var s := NatToString(n);
      DigitsValueOfNat(n / 10);
      assert s[..|s| - 1] == NatToString(n / 10);
    }
  }

  /** Parsing a rendered number gives the number back. */
  lemma ParseNatToString(n: nat)
    ensures ParseNat(NatToString(n)) == Some(n)
  {
    DigitsValueOfNat(n);
  }

  /** A digit string holds no separator character. */
  lemma DigitsHaveNo(s: string, d: char)
    requires AllDigits(s) && !IsDigit(d)
    ensures d !in s
  {
  }
}
