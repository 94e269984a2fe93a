/** The pieces of text the sources put together: decimal numbers and newline-ended lines. */
module Text {

  // ----- decimals --------------------------------------------------------------------------

  predicate IsDigit(c: char) {
    '0' <= c <= '9'
  }

  predicate AllDigits(s: string) {
    forall i: nat | i < |s| :: IsDigit(s[i])
  }

  function DigitChar(d: nat): (c: char)
    requires d < 10
    ensures IsDigit(c) && DigitValue(c) == d
  {
    '0' + d as char
  }

  function DigitValue(c: char): nat
    requires IsDigit(c)
  {
    c as nat - '0' as nat
  }

  /** A number as `{}` prints it. */
  function Decimal(n: nat): (s: string)
    ensures s != [] && AllDigits(s)
  {
    if n < 10 then [DigitChar(n)] else Decimal(n / 10) + [DigitChar(n % 10)]
  }

  function DecimalValue(s: string): nat
    requires AllDigits(s)
  {
    if s == [] then 0 else DecimalValue(s[..|s| - 1]) * 10 + DigitValue(s[|s| - 1])
  }

  lemma {:induction false} DecimalRoundTrip(n: nat)
    ensures DecimalValue(Decimal(n)) == n
  {
    if n < 10 {
      assert Decimal(n)[..0] == [];
    } else {
      DecimalRoundTrip(n / 10);
      assert Decimal(n)[..|Decimal(n)| - 1] == Decimal(n / 10);
    }
  }

  /** The digits a text begins with. */
  function DigitsAhead(s: string): (k: nat)
    ensures k <= |s| && AllDigits(s[..k]) && (k < |s| ==> !IsDigit(s[k]))
  {
    if s == [] || !IsDigit(s[0]) then 0
    else
      var k := DigitsAhead(s[1..]);
      assert s[..k + 1] == [s[0]] + s[1..][..k];
      k + 1
  }

  lemma {:induction false} DigitsAheadOf(digits: string, rest: string)
    requires AllDigits(digits) && (rest != [] ==> !IsDigit(rest[0]))
    ensures DigitsAhead(digits + rest) == |digits|
  {
    if digits == [] {
      assert digits + rest == rest;
    } else {
      DigitsAheadOf(digits[1..], rest);
      assert (digits + rest)[1..] == digits[1..] + rest;
    }
  }

  // ----- lines -----------------------------------------------------------------------------

  /** The lines a reader takes from `body` written with a newline after it, their newlines cut off. */
  function Lines(body: string): (lines: seq<string>)
    ensures |lines| >= 1
  {
    if body == "" then [""]
    else
      var rest := Lines(body[1..]);
      if body[0] == '\n' then [""] + rest else [[body[0]] + rest[0]] + rest[1..]
  }

  function Unlines(lines: seq<string>): string
    requires |lines| >= 1
  {
    if |lines| == 1 then lines[0] else lines[0] + "\n" + Unlines(lines[1..])
  }

  lemma {:induction false} LinesRoundTrip(body: string)
    ensures Unlines(Lines(body)) == body
  {
    if body != "" {
      var rest := Lines(body[1..]);
      LinesRoundTrip(body[1..]);
      if body[0] == '\n' {
        assert Lines(body)[1..] == rest;
      } else {
        var lines := Lines(body);
        assert lines[1..] == rest[1..];
        if |rest| > 1 {
          assert lines[0] + "\n" + Unlines(lines[1..]) == [body[0]] + (rest[0] + "\n" + Unlines(rest[1..]));
        }
      }
    }
  }

  /** A body is one line, and its own line, exactly when it has no newline in it. */
  lemma {:induction false} OneLineIff(body: string)
    ensures |Lines(body)| == 1 <==> '\n' !in body
    ensures Lines(body)[0] == body <==> '\n' !in body
  {
    if body != "" {
      OneLineIff(body[1..]);
      assert body == [body[0]] + body[1..];
      assert '\n' in body <==> body[0] == '\n' || '\n' in body[1..];
      if body[0] != '\n' {
        var first := Lines(body[1..])[0];
        assert Lines(body)[0] == [body[0]] + first;
        assert Lines(body)[0] == body ==> first == body[1..] by {
          if Lines(body)[0] == body {
            assert ([body[0]] + first)[1..] == first;
          }
        }
      }
    }
  }

  lemma DigitsHaveNoNewline(s: string)
    requires AllDigits(s)
    ensures '\n' !in s
  {
  }
}
