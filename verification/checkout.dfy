/**
 The payment-card check performed by the `/checkout` route: five raw form
 strings are either left unvalidated (all empty), accepted (redirect to the
 success page) or rejected (the form is shown again with its error flag set).
 */
module CardCheck {
  import opened Text

  /** The five fields of the checkout form, as submitted. */
  datatype CardForm = CardForm(
    cardNumber: string,
    cardholder: string,
    month: string,
    year: string,
    cvv: string)

  datatype Verdict = NotValidated | Accepted | Rejected

  /** A request to the checkout route: a plain page load, or a form submission. */
  datatype Request = Get | Post(form: CardForm)

  /** What the route answers: the checkout form (with its error flag), or a redirect to success. */
  datatype Page = CheckoutForm(error: bool) | RedirectToSuccess

  predicate IsSeparator(c: char) {
    c == ' ' || c == '-'
  }

  /** The card number with its spaces removed first, then its hyphens. */
  function Normalise(s: string): string {
    Delete(Delete(s, ' '), '-')
  }

  /** Normalising deletes every separator and keeps every other character, as often as it occurs. */
  lemma NormaliseContents(s: string)
    ensures forall x :: x in Normalise(s) <==> x in s && !IsSeparator(x)
    ensures forall x :: !IsSeparator(x) ==> multiset(Normalise(s))[x] == multiset(s)[x]
  {
    DeleteKeepsOthers(s, ' ');
    DeleteKeepsOthers(Delete(s, ' '), '-');
  }

  /** Reference for `Normalise`: a single left-to-right pass keeping every non-separator. */
  function KeepNonSeparators(s: string): string {
    if |s| == 0 then []
    else (if IsSeparator(s[0]) then [] else [s[0]]) + KeepNonSeparators(s[1..])
  }

  /** The two successive deletions equal the one-pass filter, so the order of the kept characters is the input's. */
  lemma {:induction false} NormaliseIsFilter(s: string)
    ensures Normalise(s) == KeepNonSeparators(s)
    decreases |s|
  {
    if |s| > 0 {
      var head := [s[0]];
      assert s == head + s[1..];
      DeleteConcat(head, s[1..], ' ');
      DeleteConcat(Delete(head, ' '), Delete(s[1..], ' '), '-');
      NormaliseIsFilter(s[1..]);
    }
  }

  lemma {:induction false} NormaliseConcat(a: string, b: string)
    ensures Normalise(a + b) == Normalise(a) + Normalise(b)
  {
    DeleteConcat(a, b, ' ');
    DeleteConcat(Delete(a, ' '), Delete(b, ' '), '-');
  }

  /** Normalising an already normalised card number changes nothing. */
  lemma NormaliseIdempotent(s: string)
    ensures Normalise(Normalise(s)) == Normalise(s)
  {
    var n := Normalise(s);
    NormaliseContents(s);
    DeleteAbsent(n, ' ');
    DeleteAbsent(n, '-');
  }

  /** A number already free of separators is its own normal form. */
  lemma NormaliseKeepsPlainNumbers(s: string)
    requires forall i :: 0 <= i < |s| ==> !IsSeparator(s[i])
    ensures Normalise(s) == s
  {
    DeleteAbsent(s, ' ');
    DeleteAbsent(s, '-');
  }

  predicate ValidCardNumber(raw: string) {
    var n := Normalise(raw);
    IsDigits(n) && |n| == 16
  }

  predicate ValidMonth(m: string) {
    IsDigits(m) && |m| <= 2 && 1 <= Value(m) <= 12
  }

  predicate ValidYear(y: string) {
    IsDigits(y) && (|y| == 2 || |y| == 4)
  }

  predicate ValidCvv(v: string) {
    IsDigits(v) && |v| == 3
  }

  predicate AllEmpty(f: CardForm) {
    f.cardNumber == "" && f.cardholder == "" && f.month == "" && f.year == "" && f.cvv == ""
  }

  /** The validation branch of the checkout route. */
  function Validate(f: CardForm): (v: Verdict)
    ensures v == NotValidated <==> AllEmpty(f)
    ensures v == Accepted ==> f.cardNumber != "" && f.month != "" && f.year != "" && f.cvv != ""
    ensures v == Accepted <==>
      !AllEmpty(f) && ValidCardNumber(f.cardNumber) && ValidMonth(f.month) && ValidYear(f.year) && ValidCvv(f.cvv)
  {
    if AllEmpty(f) then NotValidated
    else if ValidCardNumber(f.cardNumber) && ValidMonth(f.month) && ValidYear(f.year) && ValidCvv(f.cvv) then Accepted
    else Rejected
  }

  /** The checkout route: only a submission that validates leaves the form. */
  function Checkout(req: Request): (p: Page)
    ensures p == RedirectToSuccess <==> req.Post? && Validate(req.form) == Accepted
    ensures p == CheckoutForm(true) <==> req.Post? && Validate(req.form) == Rejected
    ensures req.Get? ==> p == CheckoutForm(false)
  {
    match req
    case Get => CheckoutForm(false)
    case Post(f) =>
      match Validate(f)
      case NotValidated => CheckoutForm(false)
      case Accepted => RedirectToSuccess
      case Rejected => CheckoutForm(true)
  }

  // ---------------------------------------------------------------------------
  // Properties of the field predicates, stated on the raw input
  // ---------------------------------------------------------------------------

  lemma {:induction false} KeepNonSeparatorsLength(s: string)
    requires forall i :: 0 <= i < |s| ==> IsAsciiDigit(s[i]) || IsSeparator(s[i])
    ensures |KeepNonSeparators(s)| == DigitCount(s)
    decreases |s|
  {
    if |s| > 0 {
      KeepNonSeparatorsLength(s[1..]);
    }
  }

  /**
   A raw card number is valid iff it consists only of digits, spaces and
   hyphens and holds exactly sixteen digits.
   */
  lemma CardNumberIff(raw: string)
    ensures ValidCardNumber(raw) <==>
      (forall i :: 0 <= i < |raw| ==> IsAsciiDigit(raw[i]) || IsSeparator(raw[i])) && DigitCount(raw) == 16
  {
    var n := Normalise(raw);
    NormaliseContents(raw);
    NormaliseIsFilter(raw);
    if forall i :: 0 <= i < |raw| ==> IsAsciiDigit(raw[i]) || IsSeparator(raw[i]) {
      KeepNonSeparatorsLength(raw);
      assert AllDigits(n) by {
        forall j | 0 <= j < |n|
          ensures IsAsciiDigit(n[j])
        {
          assert n[j] in n;
        }
      }
    }
    if ValidCardNumber(raw) {
      forall i | 0 <= i < |raw|
        ensures IsAsciiDigit(raw[i]) || IsSeparator(raw[i])
      {
        if !IsSeparator(raw[i]) {
          assert raw[i] in raw;
          assert raw[i] in n;
          var j :| 0 <= j < |n| && n[j] == raw[i];
        }
      }
      KeepNonSeparatorsLength(raw);
    }
  }

  /** Exactly the one- and two-digit spellings of 1 through 12 are valid months. */
  const MonthSpellings: set<string> := {
    "1", "2", "3", "4", "5", "6", "7", "8", "9",
    "01", "02", "03", "04", "05", "06", "07", "08", "09",
    "10", "11", "12"
  }

  lemma MonthIff(m: string)
    ensures ValidMonth(m) <==> m in MonthSpellings
  {
    if |m| == 1 && IsDigits(m) {
      assert m[..0] == [];
      assert m == [m[0]];
    } else if |m| == 2 && IsDigits(m) {
      assert m[..1] == [m[0]];
      assert m[..1][..0] == [];
      assert Value(m) == DigitValue(m[0]) * 10 + DigitValue(m[1]);
      assert m == [m[0], m[1]];
      if ValidMonth(m) {
        if m[0] == '0' {
          assert m == "0" + [m[1]];
        } else {
          assert m[0] == '1';
          assert m == "1" + [m[1]];
        }
      }
    }
  }

  // ---------------------------------------------------------------------------
  // Properties of the whole form
  // ---------------------------------------------------------------------------

  /**
   A submission is accepted iff the card number is sixteen digits with any
   spaces and hyphens between them, the month is one of the spellings of 1 to
   12, the year is two or four digits and the cvv is three digits.
   */
  lemma AcceptedIff(f: CardForm)
    ensures Validate(f) == Accepted <==>
      && (forall i :: 0 <= i < |f.cardNumber| ==> IsAsciiDigit(f.cardNumber[i]) || IsSeparator(f.cardNumber[i]))
      && DigitCount(f.cardNumber) == 16
      && f.month in MonthSpellings
      && IsDigits(f.year) && (|f.year| == 2 || |f.year| == 4)
      && IsDigits(f.cvv) && |f.cvv| == 3
  {
    CardNumberIff(f.cardNumber);
    MonthIff(f.month);
  }

  /** The cardholder name only decides whether validation runs, never its outcome. */
  lemma CardholderIrrelevant(f: CardForm, name: string)
    requires !AllEmpty(f) && !AllEmpty(f.(cardholder := name))
    ensures Validate(f.(cardholder := name)) == Validate(f)
  {
  }

  /** A form with only the cardholder name filled in is rejected (the empty card number has no digits). */
  lemma NameAloneRejected(f: CardForm)
    requires f.cardholder != ""
    requires f.cardNumber == "" && f.month == "" && f.year == "" && f.cvv == ""
    ensures Validate(f) == Rejected
  {
  }

  /** A submission is rejected iff some field is filled and some field check fails. */
  lemma RejectedIff(f: CardForm)
    ensures Validate(f) == Rejected <==>
      !AllEmpty(f) && !(ValidCardNumber(f.cardNumber) && ValidMonth(f.month) && ValidYear(f.year) && ValidCvv(f.cvv))
  {
  }

  /** Joining two pieces with one separator normalises to the two normalised pieces side by side. */
  lemma JoinNormalise(x: string, sep: char, y: string)
    requires IsSeparator(sep)
    ensures Normalise(x + [sep] + y) == Normalise(x) + Normalise(y)
  {
    NormaliseConcat(x, [sep]);
    NormaliseConcat(x + [sep], y);
    SeparatorVanishes(sep);
  }

  lemma SeparatorVanishes(c: char)
    requires IsSeparator(c)
    ensures Normalise([c]) == []
  {
    assert [c][1..] == [];
    if c == ' ' {
      assert Delete([c], ' ') == [];
    } else {
      assert Delete([c], ' ') == [c];
      assert Delete([c], '-') == [];
    }
  }

  lemma DigitsConcat(x: string, y: string)
    requires IsDigits(x) && IsDigits(y)
    ensures IsDigits(x + y)
  {
    assert forall i :: |x| <= i < |x + y| ==> (x + y)[i] == y[i - |x|];
  }

  /** Four groups of four digits, each pair of groups joined by one separator, form a valid number. */
  lemma GroupedNumberValid(a: string, b: string, c: string, d: string, s1: char, s2: char, s3: char)
    requires IsDigits(a) && IsDigits(b) && IsDigits(c) && IsDigits(d)
    requires |a| == 4 && |b| == 4 && |c| == 4 && |d| == 4
    requires IsSeparator(s1) && IsSeparator(s2) && IsSeparator(s3)
    ensures ValidCardNumber(a + [s1] + b + [s2] + c + [s3] + d)
  {
    NormaliseKeepsPlainNumbers(a);
    NormaliseKeepsPlainNumbers(b);
    NormaliseKeepsPlainNumbers(c);
    NormaliseKeepsPlainNumbers(d);
    var ab := a + [s1] + b;
    var abc := ab + [s2] + c;
    JoinNormalise(a, s1, b);
    JoinNormalise(ab, s2, c);
    JoinNormalise(abc, s3, d);
    DigitsConcat(a, b);
    DigitsConcat(a + b, c);
    DigitsConcat(a + b + c, d);
  }

  lemma SeparatedNumberValid()
    ensures ValidCardNumber("4111 1111-1111 1111")
  {
    GroupedNumberValid("4111", "1111", "1111", "1111", ' ', '-', ' ');
    assert "4111" + [' '] + "1111" + ['-'] + "1111" + [' '] + "1111" == "4111 1111-1111 1111";
  }

  lemma SampleFieldsValid()
    ensures ValidMonth("04") && ValidYear("2028") && ValidCvv("123")
  {
    MonthIff("04");
  }

  lemma SeparatedNumberAccepted()
    ensures Validate(CardForm("4111 1111-1111 1111", "J Smith", "04", "2028", "123")) == Accepted
  {
    SampleFieldsValid();
    SeparatedNumberValid();
  }

  lemma ShortNumberRejected()
    ensures Validate(CardForm("123", "J Smith", "04", "2028", "123")) == Rejected
  {
    CardNumberIff("123");
  }

  lemma BadMonthsAndYearRejected()
    ensures !ValidMonth("0") && !ValidMonth("13") && !ValidMonth("001")
    ensures !ValidYear("202")
    ensures Validate(CardForm("4111111111111111", "J Smith", "13", "28", "123")) == Rejected
    ensures Validate(CardForm("4111111111111111", "J Smith", "04", "202", "123")) == Rejected
  {
    MonthIff("0");
    MonthIff("13");
  }

  lemma EmptySubmissionShowsFormWithoutError()
    ensures Checkout(Post(CardForm("", "", "", "", ""))) == CheckoutForm(false)
  {
  }
}
