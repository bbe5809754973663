/** The price inputs of the new-property form
    (src/app/dashboard/properties/new/page.tsx): `handlePriceChange` reads the
    typed text, and `formatPrice` writes the stored number back into the same
    input with Persian digits. The parser keeps only ASCII digits, so the text
    it is handed back is one it cannot read; `Fixed` is the parser with
    Persian digits folded to ASCII first, which reads its own display back. */
module PriceInput {
  import opened Wrappers
  import opened Decimal

  /** What one change event does to the price field: set it to null, set it
      to a number, or leave it as it was (`parseInt` gave NaN). */
  datatype PriceUpdate = SetNull | SetValue(value: nat) | Unchanged

  /** No character `\d` matches. */
  predicate NoDigit(s: string) {
    forall i :: 0 <= i < |s| ==> !IsDigit(s[i])
  }

  /** No character `[\d,]` matches. */
  predicate NoPriceChar(s: string) {
    forall i :: 0 <= i < |s| ==> !IsDigit(s[i]) && s[i] != ','
  }

  /** `value.replace(/[^\d,]/g, '')`: ASCII digits and commas, in order. */
  function KeepPriceChars(s: string): (r: string)
    ensures |r| <= |s|
    ensures forall i :: 0 <= i < |r| ==> IsDigit(r[i]) || r[i] == ','
    ensures r == [] <==> NoPriceChar(s)
  {
    if s == [] then []
    else
      var last := s[|s| - 1];
      var init := KeepPriceChars(s[..|s| - 1]);
      assert forall i :: 0 <= i < |s| - 1 ==> s[..|s| - 1][i] == s[i];
      init + (if IsDigit(last) || last == ',' then [last] else [])
  }

  /** `.replace(/,/g, '')`. */
  function DropCommas(s: string): (r: string)
    ensures |r| <= |s|
    ensures forall i :: 0 <= i < |r| ==> r[i] != ','
  {
    if s == [] then []
    else
      var last := s[|s| - 1];
      DropCommas(s[..|s| - 1]) + (if last == ',' then [] else [last])
  }

  /** The ASCII digits of a text, in order. */
  function OnlyDigits(s: string): (r: string)
    ensures |r| <= |s|
    ensures AllDigits(r)
    ensures r == [] <==> NoDigit(s)
  {
    if s == [] then []
    else
      var last := s[|s| - 1];
      var init := OnlyDigits(s[..|s| - 1]);
      assert forall i :: 0 <= i < |s| - 1 ==> s[..|s| - 1][i] == s[i];
      init + (if IsDigit(last) then [last] else [])
  }

  /** Dropping the commas from the kept characters leaves exactly the digits. */
  lemma {:induction false} DropCommasOfKept(s: string)
    ensures DropCommas(KeepPriceChars(s)) == OnlyDigits(s)
  {
    if s != [] {
      var init := s[..|s| - 1];
      var last := s[|s| - 1];
      DropCommasOfKept(init);
      var k := KeepPriceChars(init);
      if IsDigit(last) || last == ',' {
        assert KeepPriceChars(s) == k + [last];
        assert (k + [last])[..|k + [last]| - 1] == k;
      } else {
        assert KeepPriceChars(s) == k;
      }
    }
  }

  /** `handlePriceChange`: nothing kept means null; otherwise the commas go
      and `parseInt` reads the digits; with no digit left it gives NaN and
      the field is not touched. */
  function HandlePriceChange(value: string): (r: PriceUpdate)
    ensures r == SetNull <==> NoPriceChar(value)
    ensures r == Unchanged <==> !NoPriceChar(value) && NoDigit(value)
    ensures r.SetValue? ==> !NoDigit(value) && r.value == DigitsValue(OnlyDigits(value))
  {
    var kept := KeepPriceChars(value);
    if kept == [] then SetNull
    else
      var digits := DropCommas(kept);
      DropCommasOfKept(value);
      if digits == [] then Unchanged
      else SetValue(DigitsValue(digits))
  }

  /** Filtering distributes over concatenation. */
  lemma {:induction false} OnlyDigitsAppend(a: string, b: string)
    ensures OnlyDigits(a + b) == OnlyDigits(a) + OnlyDigits(b)
  {
    if b == [] {
      assert a + b == a;
    } else {
      var b' := b[..|b| - 1];
      var last := b[|b| - 1];
      assert (a + b)[..|a + b| - 1] == a + b';
      assert (a + b)[|a + b| - 1] == last;
      OnlyDigitsAppend(a, b');
    }
  }

  /** A digit string is its own digits. */
  lemma {:induction false} OnlyDigitsOfDigits(s: string)
    requires AllDigits(s)
    ensures OnlyDigits(s) == s
  {
    if s != [] {
      OnlyDigitsOfDigits(s[..|s| - 1]);
    }
  }

  /** Two texts of one length that agree wherever either holds a digit have
      the same digits. */
  lemma {:induction false} OnlyDigitsAgree(a: string, b: string)
    requires |a| == |b|
    requires forall i :: 0 <= i < |a| && (IsDigit(a[i]) || IsDigit(b[i])) ==> a[i] == b[i]
    ensures OnlyDigits(a) == OnlyDigits(b)
  {
    if a != [] {
      OnlyDigitsAgree(a[..|a| - 1], b[..|b| - 1]);
    }
  }

  /** The thousands grouping of a digit string: a separator (written ',')
      before every full group of three counted from the right. */
  function GroupDigits(t: string): (g: string)
    requires AllDigits(t)
    ensures |g| >= |t|
    ensures forall i :: 0 <= i < |g| ==> IsDigit(g[i]) || g[i] == ','
    decreases |t|
  {
    if |t| <= 3 then t
    else GroupDigits(t[..|t| - 3]) + [','] + t[|t| - 3..]
  }

  /** A one-character text has that character as its digits exactly when it is a digit. */
  lemma OnlyDigitsSingle(c: char)
    ensures OnlyDigits([c]) == (if IsDigit(c) then [c] else [])
  {
    assert [c][..0] == [];
  }

  /** A separator between two parts adds nothing to their digits. */
  lemma {:induction false} OnlyDigitsAroundComma(g: string, tail: string)
    requires AllDigits(tail)
    ensures OnlyDigits(g + [','] + tail) == OnlyDigits(g) + tail
  {
    OnlyDigitsAppend(g + [','], tail);
    OnlyDigitsAppend(g, [',']);
    OnlyDigitsSingle(',');
    OnlyDigitsOfDigits(tail);
  }

  /** The separators carry no digits: the grouping reads back as the digits. */
  lemma {:induction false} GroupDigitsKeepsDigits(t: string)
    requires AllDigits(t)
    ensures OnlyDigits(GroupDigits(t)) == t
    decreases |t|
  {
    if |t| <= 3 {
      OnlyDigitsOfDigits(t);
    } else {
      var head := t[..|t| - 3];
      var tail := t[|t| - 3..];
      GroupDigitsKeepsDigits(head);
      OnlyDigitsAroundComma(GroupDigits(head), tail);
      assert head + tail == t;
    }
  }

  /** EXTENDED ARABIC-INDIC DIGIT ZERO (U+06F0); the Persian digits follow it. */
  const PersianZero: int := 0x06F0
  /** ARABIC THOUSANDS SEPARATOR (U+066C). */
  const PersianSeparator: char := 0x066C as char

  predicate IsPersianDigit(c: char) {
    PersianZero <= c as int <= PersianZero + 9
  }

  /** One character as the fa-IR number format writes it. */
  function LocalChar(c: char): (l: char)
    ensures !IsDigit(l)
    ensures IsDigit(c) ==> IsPersianDigit(l) && l as int - PersianZero == DigitValue(c)
  {
    if IsDigit(c) then (PersianZero + DigitValue(c)) as char
    else if c == ',' then PersianSeparator
    else c
  }

  /** `Intl.NumberFormat('fa-IR').format(n)` for a natural number: the
      grouped decimal digits written with Persian digits and separator. */
  function FormatFa(n: nat): (s: string)
    ensures NoDigit(s) && s != []
  {
    var g := GroupDigits(NatToString(n));
    seq(|g|, i requires 0 <= i < |g| => LocalChar(g[i]))
  }

  /** `formatPrice`: "" for a null or zero price, else the fa-IR text. */
  function FormatPrice(price: Option<nat>): (s: string)
    ensures s == [] <==> price.None? || price.value == 0
    ensures s != [] ==> s == FormatFa(price.value)
  {
    if price.None? || price.value == 0 then "" else FormatFa(price.value)
  }

  /** The shown text has no ASCII digit and no comma, so the parser finds
      nothing in it. */
  lemma DisplayHasNothingToKeep(n: nat)
    ensures NoPriceChar(FormatFa(n))
  {
    var s := FormatFa(n);
    forall i | 0 <= i < |s| ensures !IsDigit(s[i]) && s[i] != ',' {
      var g := GroupDigits(NatToString(n));
      assert s[i] == LocalChar(g[i]);
    }
  }

  /** Text with an ASCII digit is read as the value of its digits. */
  lemma ReadsDigits(v: string, k: nat, value: nat)
    requires k < |v| && IsDigit(v[k]) && DigitsValue(OnlyDigits(v)) == value
    ensures HandlePriceChange(v) == SetValue(value)
  {
    assert !NoDigit(v) && !NoPriceChar(v);
  }

  /** Appending a digit to a digit string multiplies its value by ten and
      adds the digit. */
  lemma DigitsValueSnoc(t: string, a: char)
    requires AllDigits(t) && IsDigit(a)
    ensures DigitsValue(t + [a]) == 10 * DigitsValue(t) + DigitValue(a)
  {
    assert (t + [a])[..|t|] == t;
  }

  /** A digit typed after text without ASCII digits is read on its own. */
  lemma {:induction false} DigitAfterDigitFree(s: string, c: char)
    requires NoDigit(s) && IsDigit(c)
    ensures HandlePriceChange(s + [c]) == SetValue(DigitValue(c))
  {
    OnlyDigitsAppend(s, [c]);
    OnlyDigitsSingle(c);
    assert OnlyDigits(s + [c]) == [c];
    DigitsValueSnoc([], c);
    assert [] + [c] == [c];
    ReadsDigits(s + [c], |s|, DigitValue(c));
  }

  /** Typing a digit after a shown price: the field becomes that digit alone,
      every digit shown before it is lost. */
  lemma TypingAfterDisplayLosesPrice(n: nat, c: char)
    requires n >= 1 && IsDigit(c)
    ensures HandlePriceChange(FormatPrice(Some(n)) + [c]) == SetValue(DigitValue(c))
  {
    DigitAfterDigitFree(FormatFa(n), c);
  }

  /** Deleting the last shown character (or any edit that keeps the text
      Persian) clears the price instead of shortening it. */
  lemma EditingDisplayClearsPrice(n: nat, k: nat)
    requires k <= |FormatFa(n)|
    ensures HandlePriceChange(FormatFa(n)[..k]) == SetNull
  {
    DisplayHasNothingToKeep(n);
  }

  /** The concrete case: the field shows 123 as "۱۲۳"; typing 4 stores 4, not 1234. */
  lemma PriceExample()
    ensures HandlePriceChange(FormatPrice(Some(123)) + ['4']) == SetValue(4)
    ensures HandlePriceChange(FormatPrice(Some(123)) + ['4']) != SetValue(1234)
  {
    TypingAfterDisplayLosesPrice(123, '4');
  }

  /** Persian digits to ASCII; every other character is kept. */
  function AsciiChar(c: char): (a: char)
    ensures IsPersianDigit(c) ==> IsDigit(a) && DigitValue(a) == c as int - PersianZero
    ensures !IsPersianDigit(c) ==> a == c
  {
    if IsPersianDigit(c) then DigitChar(c as int - PersianZero) else c
  }

  function FoldDigits(s: string): (r: string)
    ensures |r| == |s|
  {
    seq(|s|, i requires 0 <= i < |s| => AsciiChar(s[i]))
  }

  /** The corrected handler: fold Persian digits to ASCII, then parse as before. */
  function Fixed(value: string): (r: PriceUpdate)
    ensures r.SetValue? ==> r.value == DigitsValue(OnlyDigits(FoldDigits(value)))
    ensures r == SetNull <==> NoPriceChar(FoldDigits(value))
  {
    HandlePriceChange(FoldDigits(value))
  }

  /** Folding the display back to ASCII gives the grouping with its
      separators still Persian, so its digits are the written number. */
  lemma {:induction false} FoldedDisplayDigits(n: nat)
    ensures OnlyDigits(FoldDigits(FormatFa(n))) == NatToString(n)
  {
    var g := GroupDigits(NatToString(n));
    var f := FoldDigits(FormatFa(n));
    forall i | 0 <= i < |g| && (IsDigit(f[i]) || IsDigit(g[i])) ensures f[i] == g[i] {
      assert FormatFa(n)[i] == LocalChar(g[i]);
      if IsDigit(g[i]) {
        assert DigitChar(DigitValue(g[i])) == g[i];
      }
    }
    OnlyDigitsAgree(f, g);
    GroupDigitsKeepsDigits(NatToString(n));
  }

  /** The corrected handler reads every shown price back as itself. */
  lemma FixedReadsDisplay(n: nat)
    requires n >= 1
    ensures Fixed(FormatPrice(Some(n))) == SetValue(n)
  {
    FoldedDisplayDigits(n);
    ReadWritten(n);
    var f := FoldDigits(FormatFa(n));
    assert !NoDigit(f);
  }

  /** A digit typed after text whose digits spell `n` makes 10 n + d. */
  lemma DigitAfterNumber(s: string, n: nat, a: char)
    requires OnlyDigits(s) == NatToString(n) && IsDigit(a)
    ensures HandlePriceChange(s + [a]) == SetValue(10 * n + DigitValue(a))
  {
    DigitsAfterNumber(s, n, a);
    ReadsDigits(s + [a], |s|, 10 * n + DigitValue(a));
  }

  /** The digits of that text are the number's digits and the new one. */
  lemma DigitsAfterNumber(s: string, n: nat, a: char)
    requires OnlyDigits(s) == NatToString(n) && IsDigit(a)
    ensures OnlyDigits(s + [a]) == NatToString(n) + [a]
    ensures DigitsValue(OnlyDigits(s + [a])) == 10 * n + DigitValue(a)
  {
    OnlyDigitsAppend(s, [a]);
    OnlyDigitsSingle(a);
    DigitsValueSnoc(NatToString(n), a);
    ReadWritten(n);
  }

  /** Typing a digit, ASCII or Persian, after a shown price appends it to the
      number: n becomes 10 n + d. */
  lemma FixedTypingAppends(n: nat, c: char)
    requires n >= 1 && (IsDigit(c) || IsPersianDigit(c))
    ensures Fixed(FormatPrice(Some(n)) + [c]) == SetValue(10 * n + DigitValue(AsciiChar(c)))
  {
    FoldedDisplayDigits(n);
    FoldAppend(FormatFa(n), c);
    DigitAfterNumber(FoldDigits(FormatFa(n)), n, AsciiChar(c));
  }

  lemma FoldAppend(s: string, c: char)
    ensures FoldDigits(s + [c]) == FoldDigits(s) + [AsciiChar(c)]
  {
  }

  /** On text without Persian digits the corrected handler is the original. */
  lemma FixedAgreesOnAscii(value: string)
    requires forall i :: 0 <= i < |value| ==> !IsPersianDigit(value[i])
    ensures Fixed(value) == HandlePriceChange(value)
  {
    assert FoldDigits(value) == value;
  }
}
