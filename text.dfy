/**
 * Text helpers the solvers share: splitting text at a separator (Rust's
 * `str::split`, `str::lines` and `str::split_whitespace`) and reading and
 * writing decimal numbers (`str::parse` and `to_string`). All text is taken
 * to be ASCII, so a character and a byte are the same thing.
 */
module Text {
  import opened Wrappers

  /** Splits s at every non-overlapping occurrence of sep, scanning left to right; no piece holds a one-character separator. */
  function Split(s: string, sep: string): (r: seq<string>)
    requires |sep| > 0
    ensures |r| >= 1
    ensures |sep| == 1 ==> forall i, j :: 0 <= i < |r| && 0 <= j < |r[i]| ==> r[i][j] != sep[0]
    decreases |s|
  {
    if |s| < |sep| then [s]
    else if s[..|sep|] == sep then [""] + Split(s[|sep|..], sep)
    else
      var rest := Split(s[1..], sep);
      [[s[0]] + rest[0]] + rest[1..]
  }

  /** Glues pieces back together with sep between neighbours. */
  function Join(parts: seq<string>, sep: string): string
  {
    if |parts| == 0 then ""
    else if |parts| == 1 then parts[0]
    else parts[0] + sep + Join(parts[1..], sep)
  }

  /** Splitting loses nothing: joining the pieces with the separator gives the text back. */
  lemma {:induction false} JoinSplit(s: string, sep: string)
    requires |sep| > 0
    ensures Join(Split(s, sep), sep) == s
    decreases |s|
  {
    if |s| < |sep| {
    } else if s[..|sep|] == sep {
      JoinSplit(s[|sep|..], sep);
      var rest := Split(s[|sep|..], sep);
      assert Split(s, sep) == [""] + rest;
      JoinCons("", rest, sep);
      assert s == s[..|sep|] + s[|sep|..];
    } else {
      JoinSplit(s[1..], sep);
      var rest := Split(s[1..], sep);
      assert Split(s, sep) == [[s[0]] + rest[0]] + rest[1..];
      JoinWiden(s[0], rest, sep);
      assert s == [s[0]] + s[1..];
    }
  }

  /** One more piece in front adds it and a separator. */
  lemma JoinCons(p: string, rest: seq<string>, sep: string)
    requires |rest| >= 1
    ensures Join([p] + rest, sep) == p + sep + Join(rest, sep)
  {
    assert ([p] + rest)[1..] == rest;
  }

  /** One more character at the front of the first piece comes first in the joined text. */
  lemma JoinWiden(c: char, rest: seq<string>, sep: string)
    requires |rest| >= 1
    ensures Join([[c] + rest[0]] + rest[1..], sep) == [c] + Join(rest, sep)
  {
    var r := [[c] + rest[0]] + rest[1..];
    if |rest| == 1 {
      assert r == [[c] + rest[0]];
    } else {
      assert r[1..] == rest[1..];
      assert Join(rest, sep) == rest[0] + sep + Join(rest[1..], sep);
      assert Join(r, sep) == ([c] + rest[0]) + sep + Join(rest[1..], sep);
    }
  }

  /**
   * Rust's `str::lines`: the pieces between line feeds, where a final line
   * feed does not start one more (empty) line. Carriage returns are not
   * treated specially.
   */
  function Lines(s: string): (r: seq<string>)
    ensures forall i :: 0 <= i < |r| ==> '\n' !in r[i]
  {
    SplitHasNoSeparator(s, '\n');
    var parts := Split(s, "\n");
    if parts[|parts| - 1] == "" then parts[..|parts| - 1] else parts
  }

  /** No piece of a split at a one-character separator contains that character. */
  lemma {:induction false} SplitHasNoSeparator(s: string, c: char)
    ensures forall i :: 0 <= i < |Split(s, [c])| ==> c !in Split(s, [c])[i]
    decreases |s|
  {
    if |s| >= 1 {
      SplitHasNoSeparator(s[1..], c);
      if s[..1] != [c] {
        assert s[0] != c;
      }
    }
  }

  predicate IsSpace(c: char)
  {
    c == ' ' || c == '\t' || c == '\n' || c == '\r'
  }

  /** Length of the run of non-blank characters that starts s. */
  function WordLength(s: string): (n: nat)
    requires s != [] && !IsSpace(s[0])
    ensures 1 <= n <= |s|
    ensures forall i :: 0 <= i < n ==> !IsSpace(s[i])
    ensures n == |s| || IsSpace(s[n])
  {
    if |s| == 1 || IsSpace(s[1]) then 1 else 1 + WordLength(s[1..])
  }

  /** Rust's `str::split_whitespace`: the maximal runs of non-blank characters, in order. */
  function Words(s: string): (r: seq<string>)
    ensures forall i :: 0 <= i < |r| ==> r[i] != [] && forall c :: c in r[i] ==> !IsSpace(c)
    decreases |s|
  {
    if s == [] then []
    else if IsSpace(s[0]) then Words(s[1..])
    else
      var n := WordLength(s);
      [s[..n]] + Words(s[n..])
  }

  predicate IsDigit(c: char)
  {
    '0' <= c <= '9'
  }

  function DigitValue(c: char): (d: nat)
    requires IsDigit(c)
    ensures d < 10
  {
    (c as int) - ('0' as int)
  }

  function DigitChar(d: nat): (c: char)
    requires d < 10
    ensures IsDigit(c) && DigitValue(c) == d
  {
    (('0' as int) + d) as char
  }

  /** The value of a non-empty string of decimal digits, most significant first. */
  function DigitsValue(s: string): nat
    requires forall i :: 0 <= i < |s| ==> IsDigit(s[i])
  {
    if s == [] then 0 else 10 * DigitsValue(s[..|s| - 1]) + DigitValue(s[|s| - 1])
  }

  predicate AllDigits(s: string)
  {
    |s| > 0 && forall i :: 0 <= i < |s| ==> IsDigit(s[i])
  }

  /**
   * Rust's `str::parse` for an unsigned integer: an optional `+` and then
   * at least one decimal digit; anything else is an error (None). The
   * machine width, and with it overflow, is not modelled.
   */
  function ParseNat(s: string): (r: Option<nat>)
    ensures r.Some? <==> AllDigits(s) || (|s| > 1 && s[0] == '+' && AllDigits(s[1..]))
  {
    if |s| > 1 && s[0] == '+' && AllDigits(s[1..]) then Some(DigitsValue(s[1..]))
    else if AllDigits(s) then Some(DigitsValue(s))
    else None
  }

  /** Rust's `str::parse` for a signed integer: an optional `+` or `-`, then digits. */
  function ParseInt(s: string): (r: Option<int>)
    ensures r.Some? <==> AllDigits(s) || (|s| > 1 && (s[0] == '+' || s[0] == '-') && AllDigits(s[1..]))
  {
    if |s| > 1 && s[0] == '-' && AllDigits(s[1..]) then
      var v: int := 0 - DigitsValue(s[1..]) as int;
      Some(v)
    else match ParseNat(s)
      case Some(n) => Some(n)
      case None => None
  }

  /** Decimal rendering of n without leading zeros (Rust's `to_string`). */
  function ShowNat(n: nat): (s: string)
    ensures AllDigits(s)
    ensures s[0] == '0' ==> n == 0
  {
    if n < 10 then [DigitChar(n)] else ShowNat(n / 10) + [DigitChar(n % 10)]
  }

  /** Reading back what ShowNat wrote gives the number. */
  lemma {:induction false} ShowNatDigitsValue(n: nat)
    ensures DigitsValue(ShowNat(n)) == n
  {
    if n >= 10 {
      ShowNatDigitsValue(n / 10);
      var s := ShowNat(n);
      assert s[..|s| - 1] == ShowNat(n / 10);
    }
  }

  lemma ParseShowNat(n: nat)
    ensures ParseNat(ShowNat(n)) == Some(n)
  {
    ShowNatDigitsValue(n);
  }
}
