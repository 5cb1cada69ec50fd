/** Rupee amounts as the synthetic documents print them, and the normaliser that reads them back. */
module Money {
  import opened Results
  import opened Text

  const RUPEE: string := ['\U{20B9}']

  /* ---------- the normaliser ---------- */

  predicate StartsWith(s: string, prefix: string) { |prefix| <= |s| && s[..|prefix|] == prefix }

  predicate EndsWith(s: string, suffix: string) { |suffix| <= |s| && s[|s| - |suffix|..] == suffix }

  /** Deletes every occurrence, left to right. */
  function Delete(s: string, what: string): string
    requires what != ""
    decreases |s|
  {
    if s == "" then ""
    else if StartsWith(s, what) then Delete(s[|what|..], what)
    else [s[0]] + Delete(s[1..], what)
  }

  function RemoveSuffix(s: string, suffix: string): string {
    if EndsWith(s, suffix) then s[..|s| - |suffix|] else s
  }

  /** How many digits the string starts with. */
  function DigitRun(s: string): (n: nat)
    ensures n <= |s| && AllDigits(s[..n]) && (n < |s| ==> !Digit(s[n]))
  {
    if s == "" || !Digit(s[0]) then 0 else
      var n := 1 + DigitRun(s[1..]);
      assert s[..n] == [s[0]] + s[1..][..n - 1];
      n
  }

  /** Digits, optionally a point and one or two more digits; in hundredths. */
  function ReadAmount(s: string): Option<nat> {
    var n := DigitRun(s);
    if n == 0 then None
    else if n == |s| then Some(100 * ToInt(s))
    else
      var fraction := s[n + 1..];
      if s[n] == '.' && 1 <= |fraction| <= 2 && AllDigits(fraction) then
        Some(100 * ToInt(s[..n]) + (if |fraction| == 2 then ToInt(fraction) else 10 * ToInt(fraction)))
      else None
  }

  /** What is left once the currency marks are gone. */
  function Cleaned(raw: string): string {
    var bare := Strip(Delete(Delete(Delete(raw, RUPEE), "Rs."), "Rs"));
    Delete(Strip(RemoveSuffix(bare, "/-")), ",")
  }

  function NormaliseMoneyToPaise(raw: string): Option<nat> { ReadAmount(Cleaned(raw)) }

  /* ---------- the printer ---------- */

  function Digits(n: nat): string {
    if n < 10 then ['0' + n as char] else Digits(n / 10) + ['0' + (n % 10) as char]
  }

  /** A comma before every third digit from the right. */
  function Grouped(s: string): string {
    if |s| <= 3 then s else Grouped(s[..|s| - 3]) + "," + s[|s| - 3..]
  }

  function WithCommas(n: nat): string { Grouped(Digits(n)) }

  function PrintRs(n: nat): string { "Rs. " + WithCommas(n) }

  function PrintInr(n: nat): string { "INR " + WithCommas(n) + ".00" }

  function PrintRupee(n: nat): string { RUPEE + WithCommas(n) + "/-" }

  /* ---------- deleting what is not there, and what is ---------- */

  /** No occurrence can begin inside s. */
  predicate Free(s: string, c: char) { forall i | 0 <= i < |s| :: s[i] != c }

  lemma {:induction false} DeleteFree(s: string, what: string)
    requires what != "" && Free(s, what[0])
    ensures Delete(s, what) == s
  {
    if s != "" {
      DeleteFree(s[1..], what);
      assert |what| <= |s| ==> s[..|what|][0] == s[0];
      assert s == [s[0]] + s[1..];
    }
  }

  lemma {:induction false} DeleteHead(what: string, s: string)
    requires what != "" && Free(s, what[0])
    ensures Delete(what + s, what) == s
  {
    assert (what + s)[..|what|] == what && (what + s)[|what|..] == s;
    DeleteFree(s, what);
  }

  lemma {:induction false} DeleteConcat(a: string, b: string, c: char)
    ensures Delete(a + b, [c]) == Delete(a, [c]) + Delete(b, [c])
  {
    if a == "" {
      assert a + b == b;
    } else {
      DeleteConcat(a[1..], b, c);
      assert (a + b)[1..] == a[1..] + b && (a + b)[..1] == a[..1];
      assert a[..1] == [a[0]];
    }
  }

  /** A numeral as people write it: digits, with commas and points anywhere. */
  predicate Numeral(s: string) { s != "" && forall i | 0 <= i < |s| :: Digit(s[i]) || s[i] == ',' || s[i] == '.' }

  lemma {:induction false} NumeralTrimmed(s: string)
    requires Numeral(s)
    ensures Trimmed(s) && Free(s, 'R') && Free(s, RUPEE[0])
  {
    assert forall i | 0 <= i < |s| :: !IsSpace(s[i]);
  }

  lemma {:induction false} NoSuffix(s: string)
    requires Numeral(s)
    ensures RemoveSuffix(s, "/-") == s
  {
    assert |s| >= 2 ==> s[|s| - 2..][1] == s[|s| - 1];
  }

  /** Both printed forms come down to the numeral without its commas. */
  lemma {:induction false} CleanedRs(s: string)
    requires Numeral(s)
    ensures Cleaned("Rs. " + s) == Delete(s, ",")
  {
    hide Delete, Strip;
    NumeralTrimmed(s);
    var raw := "Rs. " + s;
    assert Delete(raw, RUPEE) == raw by { DeleteFree(raw, RUPEE); }
    assert Delete(raw, "Rs.") == " " + s by {
      assert raw == "Rs." + (" " + s);
      DeleteHead("Rs.", " " + s);
    }
    assert Delete(" " + s, "Rs") == " " + s by { DeleteFree(" " + s, "Rs"); }
    assert Strip(" " + s) == s by { StripPadded(s); }
    NoSuffix(s);
    assert Strip(s) == s by { TrimmedIsStripped(s); }
  }

  lemma {:induction false} StripPadded(s: string)
    requires s != "" && Trimmed(s)
    ensures Strip(" " + s) == s
  {
    LeadOf(" ", s);
    assert SkipSpaces(" " + s) == s;
    BodyOf(s, "");
    assert s + "" == s;
  }

  lemma {:induction false} CleanedRupee(s: string)
    requires Numeral(s)
    ensures Cleaned(RUPEE + s + "/-") == Delete(s, ",")
  {
    hide Delete, Strip;
    NumeralTrimmed(s);
    var tail := s + "/-";
    assert Delete(RUPEE + s + "/-", RUPEE) == tail by {
      assert RUPEE + s + "/-" == RUPEE + tail;
      DeleteHead(RUPEE, tail);
    }
    assert Delete(tail, "Rs.") == tail by { DeleteFree(tail, "Rs."); }
    assert Delete(tail, "Rs") == tail by { DeleteFree(tail, "Rs"); }
    assert Strip(tail) == tail by { TrimmedIsStripped(tail); }
    assert RemoveSuffix(tail, "/-") == s by { assert tail[|s|..] == "/-" && tail[..|s|] == s; }
    assert Strip(s) == s by { TrimmedIsStripped(s); }
  }

  /** Where the commas stand does not matter, nor which of the two notations is used. */
  lemma {:induction false} CommasIrrelevant(s: string, t: string)
    requires Numeral(s) && Numeral(t) && Delete(s, ",") == Delete(t, ",")
    ensures NormaliseMoneyToPaise("Rs. " + s) == NormaliseMoneyToPaise("Rs. " + t)
    ensures NormaliseMoneyToPaise(RUPEE + s + "/-") == NormaliseMoneyToPaise(RUPEE + t + "/-")
    ensures NormaliseMoneyToPaise("Rs. " + s) == NormaliseMoneyToPaise(RUPEE + t + "/-")
  {
    hide Cleaned, ReadAmount;
    CleanedRs(s);
    CleanedRs(t);
    CleanedRupee(s);
    CleanedRupee(t);
  }

  /* ---------- the round trip ---------- */

  lemma {:induction false} DigitsStand(n: nat)
    ensures Digits(n) != "" && AllDigits(Digits(n)) && ToInt(Digits(n)) == n
  {
    if n >= 10 {
      DigitsStand(n / 10);
      var front := Digits(n / 10);
      assert Digits(n)[..|front|] == front;
    } else {
      assert Digits(n)[..0] == "";
    }
  }

  lemma {:induction false} GroupJoin(g: string, last: string)
    requires Numeral(g) && AllDigits(last)
    ensures Numeral(g + "," + last) && Delete(g + "," + last, ",") == Delete(g, ",") + last
  {
    hide Delete;
    DeleteConcat(g + ",", last, ',');
    DeleteConcat(g, ",", ',');
    DeleteFree(last, ",");
    DeleteHead(",", "");
    assert "," + "" == ",";
  }

  lemma {:induction false} GroupingIsCommas(s: string)
    requires AllDigits(s) && s != ""
    ensures Numeral(Grouped(s)) && Delete(Grouped(s), ",") == s
  {
    hide Delete;
    if |s| <= 3 {
      DeleteFree(s, ",");
    } else {
      var front, last := s[..|s| - 3], s[|s| - 3..];
      GroupingIsCommas(front);
      GroupJoin(Grouped(front), last);
      assert s == front + last;
    }
  }

  lemma {:induction false} WholeRun(s: string)
    requires AllDigits(s)
    ensures DigitRun(s) == |s|
  {
    if s != "" { WholeRun(s[1..]); }
  }

  lemma {:induction false} NumeralRead(n: nat)
    ensures Numeral(WithCommas(n)) && ReadAmount(Delete(WithCommas(n), ",")) == Some(100 * n)
  {
    hide Delete, Grouped, Digits;
    DigitsStand(n);
    GroupingIsCommas(Digits(n));
    WholeRun(Digits(n));
  }

  /** Printing an amount and reading it back gives exactly a hundred times the amount. */
  lemma {:induction false} RoundTrip(n: nat)
    ensures NormaliseMoneyToPaise(PrintRs(n)) == Some(100 * n)
    ensures NormaliseMoneyToPaise(PrintRupee(n)) == Some(100 * n)
  {
    hide Delete, Cleaned, ReadAmount, WithCommas;
    NumeralRead(n);
    CleanedRs(WithCommas(n));
    CleanedRupee(WithCommas(n));
  }

  lemma {:induction false} DeleteKeepsFirst(s: string, what: string)
    requires what != "" && s != "" && s[0] != what[0]
    ensures var r := Delete(s, what);
            r != "" && r[0] == s[0] && r[1..] == Delete(s[1..], what)
  {
    assert |what| <= |s| ==> s[..|what|][0] == s[0];
  }

  /** The third printed notation is always rejected: its currency mark is not stripped. */
  lemma {:induction false} InrRejected(n: nat)
    ensures NormaliseMoneyToPaise(PrintInr(n)).None?
  {
    hide Delete, Strip, WithCommas;
    NumeralRead(n);
    var body := WithCommas(n) + ".00";
    NumeralTrimmed(WithCommas(n));
    var raw := PrintInr(n);
    assert raw == "INR " + body;
    assert Delete(raw, RUPEE) == raw by { DeleteFree(raw, RUPEE); }
    assert Delete(raw, "Rs.") == raw by { DeleteInr(body, "Rs."); }
    assert Delete(raw, "Rs") == raw by { DeleteInr(body, "Rs"); }
    assert Strip(raw) == raw by { TrimmedIsStripped(raw); }
    assert RemoveSuffix(raw, "/-") == raw by { assert raw[|raw| - 2..][0] == '0'; }
    DeleteKeepsFirst(raw, ",");
  }

  lemma {:induction false} DeleteStep(c: char, s: string, what: string)
    requires |what| >= 2 && Delete(s, what) == s
    requires c != what[0] || s == "" || s[0] != what[1]
    ensures Delete([c] + s, what) == [c] + s
  {
    var t := [c] + s;
    assert t[1..] == s;
    assert |what| <= |t| ==> t[..|what|][0] == c && t[..|what|][1] == s[0];
  }

  lemma {:induction false} DeleteInr(body: string, what: string)
    requires Free(body, 'R') && |what| >= 2 && what[0] == 'R' && what[1] == 's'
    ensures Delete("INR " + body, what) == "INR " + body
  {
    hide Delete;
    var a := " " + body;
    DeleteFree(a, what);
    DeleteStep('R', a, what);
    DeleteStep('N', "R" + a, what);
    DeleteStep('I', "N" + ("R" + a), what);
    assert "INR " + body == "I" + ("N" + ("R" + a));
  }

  /* ---------- paise ---------- */

  lemma {:induction false} RunOf(whole: string, rest: string)
    requires AllDigits(whole) && (rest == "" || !Digit(rest[0]))
    ensures DigitRun(whole + rest) == |whole|
  {
    if whole == "" {
      assert whole + rest == rest;
    } else {
      assert (whole + rest)[1..] == whole[1..] + rest;
      RunOf(whole[1..], rest);
    }
  }

  /** After a point one digit counts tens of paise, two count paise, and anything else is rejected. */
  lemma {:induction false} FractionRead(whole: string, fraction: string)
    requires AllDigits(whole) && whole != "" && AllDigits(fraction)
    ensures ReadAmount(whole + "." + fraction) ==
              (if |fraction| == 1 then Some(100 * ToInt(whole) + 10 * ToInt(fraction))
               else if |fraction| == 2 then Some(100 * ToInt(whole) + ToInt(fraction))
               else None)
  {
    var s := whole + "." + fraction;
    assert s == whole + ("." + fraction);
    RunOf(whole, "." + fraction);
    assert s[..|whole|] == whole && s[|whole|] == '.' && s[|whole| + 1..] == fraction;
  }

  /** So rupees and paise are read from either notation, wherever the commas of the rupees stand. */
  lemma {:induction false} PaiseRead(numeral: string, whole: string, fraction: string)
    requires Numeral(numeral) && Delete(numeral, ",") == whole && AllDigits(whole) && whole != ""
    requires AllDigits(fraction) && |fraction| == 2
    ensures var s := numeral + "." + fraction;
            && NormaliseMoneyToPaise("Rs. " + s) == Some(100 * ToInt(whole) + ToInt(fraction))
            && NormaliseMoneyToPaise(RUPEE + s + "/-") == Some(100 * ToInt(whole) + ToInt(fraction))
  {
    hide Delete, Cleaned, ReadAmount;
    var s := numeral + "." + fraction;
    PaiseNumeral(numeral, fraction);
    CleanedRs(s);
    CleanedRupee(s);
    DeleteConcat(numeral + ".", fraction, ',');
    DeleteConcat(numeral, ".", ',');
    DeleteFree(".", ",");
    DeleteFree(fraction, ",");
    FractionRead(whole, fraction);
  }

  lemma {:induction false} PaiseNumeral(numeral: string, fraction: string)
    requires Numeral(numeral) && AllDigits(fraction)
    ensures Numeral(numeral + "." + fraction)
  {
  }

  /** The mark may be missing, be the sign or be `Rs` with or without its stop, and any of them may end in `/-`. */
  lemma {:induction false} NotationsAgree(s: string, mark: string)
    requires Numeral(s) && s[0] != '.' && (mark == "" || mark == RUPEE || mark == "Rs" || mark == "Rs.")
    ensures Cleaned(mark + s) == Delete(s, ",") && Cleaned(mark + (" " + s)) == Delete(s, ",")
    ensures Cleaned(mark + (s + "/-")) == Delete(s, ",")
  {
    hide Delete, Strip, Cleaned;
    NumeralTrimmed(s);
    CleanedBehind(mark, s, s);
    CleanedBehind(mark, " " + s, s);
    CleanedBehind(mark, s + "/-", s);
  }

  /** What is left of a numeral behind its mark, with a space before it or the suffix after it. */
  lemma {:induction false} CleanedBehind(mark: string, tail: string, s: string)
    requires Numeral(s) && s[0] != '.' && (tail == s || tail == " " + s || tail == s + "/-")
    requires mark == "" || mark == RUPEE || mark == "Rs" || mark == "Rs."
    ensures Cleaned(mark + tail) == Delete(s, ",")
  {
    hide Delete, Strip;
    NumeralTrimmed(s);
    MarkGone(mark, tail);
    TailStripped(tail, s);
  }

  lemma {:induction false} MarkGone(mark: string, tail: string)
    requires mark == "" || mark == RUPEE || mark == "Rs" || mark == "Rs."
    requires Free(tail, 'R') && Free(tail, RUPEE[0]) && tail != "" && tail[0] != '.'
    ensures Delete(Delete(Delete(mark + tail, RUPEE), "Rs."), "Rs") == tail
  {
    hide Delete;
    DeleteFree(tail, RUPEE);
    DeleteFree(tail, "Rs.");
    DeleteFree(tail, "Rs");
    if mark == "" {
      assert mark + tail == tail;
    } else if mark == RUPEE {
      DeleteHead(RUPEE, tail);
    } else {
      DeleteFree(mark + tail, RUPEE);
      if mark == "Rs." {
        DeleteHead("Rs.", tail);
      } else {
        PlainRs(tail);
        DeleteHead("Rs", tail);
      }
    }
  }

  lemma {:induction false} PlainRs(tail: string)
    requires Free(tail, 'R') && tail != "" && tail[0] != '.'
    ensures Delete("Rs" + tail, "Rs.") == "Rs" + tail
  {
    hide Delete;
    var a := "s" + tail;
    DeleteFree(a, "Rs.");
    assert ("Rs" + tail)[..3][2] == tail[0] && ("Rs" + tail)[1..] == a;
    NotHere("Rs" + tail, "Rs.", a);
  }

  lemma {:induction false} NotHere(t: string, what: string, rest: string)
    requires what != "" && t != "" && t[1..] == rest && !StartsWith(t, what) && Delete(rest, what) == rest
    ensures Delete(t, what) == t
  {
  }

  lemma {:induction false} TailStripped(tail: string, s: string)
    requires Numeral(s) && (tail == s || tail == " " + s || tail == s + "/-")
    ensures Delete(Strip(RemoveSuffix(Strip(tail), "/-")), ",") == Delete(s, ",")
  {
    hide Delete, Strip;
    NumeralTrimmed(s);
    TrimmedIsStripped(s);
    NoSuffix(s);
    if tail == " " + s { StripPadded(s); }
    if tail == s + "/-" {
      TrimmedIsStripped(tail);
      assert tail[|s|..] == "/-" && tail[..|s|] == s;
    }
  }
}
