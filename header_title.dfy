/**
 * The header title the view controller shows (`updateTitle`): a function of
 * the roster size alone. Swift's string interpolation of an `Int` is rendered
 * here by `Decimal`, and `CountInTitle` reads a title back, so that the title
 * is shown to determine the roster size exactly.
 */
module HeaderTitle {
  import opened Wrappers

  const NoFriends := "No friends yet"
  const FriendsSuffix := " friends"

  predicate IsDigit(c: char)
  {
    '0' <= c <= '9'
  }

  predicate AllDigits(s: string)
  {
    forall i :: 0 <= i < |s| ==> IsDigit(s[i])
  }

  function Digit(d: nat): (c: char)
    requires d < 10
    ensures IsDigit(c) && c as int - '0' as int == d
  {
    (d + '0' as int) as char
  }

  function DigitValue(c: char): nat
    requires IsDigit(c)
  {
    c as int - '0' as int
  }

  /** Decimal text of a count, most significant digit first, no leading zero. */
  function Decimal(n: nat): (s: string)
    ensures |s| > 0 && AllDigits(s)
    ensures s[0] == '0' <==> n == 0
  {
    if n < 10 then [Digit(n)] else Decimal(n / 10) + [Digit(n % 10)]
  }

  /** Value of a string of decimal digits (the inverse of `Decimal`). */
  function ParseDecimal(s: string): nat
    requires AllDigits(s)
  {
    if |s| == 0 then 0 else 10 * ParseDecimal(s[..|s| - 1]) + DigitValue(s[|s| - 1])
  }

  lemma {:induction false} DecimalRoundTrip(n: nat)
    ensures ParseDecimal(Decimal(n)) == n
  {
    if n >= 10 {
      var s := Decimal(n);
      assert s[..|s| - 1] == Decimal(n / 10);
      DecimalRoundTrip(n / 10);
    }
  }

  /** The title for a roster of `count` peers. */
  function TitleFor(count: nat): (t: string)
    ensures t == NoFriends <==> count == 0
    ensures count > 0 ==> |t| > |FriendsSuffix| && t[|t| - |FriendsSuffix|..] == FriendsSuffix
    ensures count > 0 ==> t == Decimal(count) + FriendsSuffix
  {
    if count > 0 then
      var t := Decimal(count) + FriendsSuffix;
      assert t[0] != NoFriends[0];
      assert t[|t| - |FriendsSuffix|..] == FriendsSuffix;
      t
    else NoFriends
  }

  /** Reads the roster size back from a title; `None` for any other text. */
  function CountInTitle(t: string): Option<nat>
  {
    if t == NoFriends then Some(0)
    else if |t| > |FriendsSuffix| && t[|t| - |FriendsSuffix|..] == FriendsSuffix
         && AllDigits(t[..|t| - |FriendsSuffix|])
    then Some(ParseDecimal(t[..|t| - |FriendsSuffix|]))
    else None
  }

  /** The title always shows the exact roster size. */
  lemma TitleRoundTrip(count: nat)
    ensures CountInTitle(TitleFor(count)) == Some(count)
  {
    if count > 0 {
      var t := TitleFor(count);
      assert t[..|t| - |FriendsSuffix|] == Decimal(count);
      DecimalRoundTrip(count);
    }
  }

  /** Different roster sizes give different titles. */
  lemma TitleInjective(a: nat, b: nat)
    requires TitleFor(a) == TitleFor(b)
    ensures a == b
  {
    TitleRoundTrip(a);
    TitleRoundTrip(b);
  }

  /** There is no singular form: one peer gives "1 friends". */
  lemma OnePeerTitle()
    ensures TitleFor(1) == "1 friends"
  {
  }
}
