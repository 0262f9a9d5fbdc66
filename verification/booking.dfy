/**
 The booking form's submit handler in main.js, up to the point where it posts the form:
 the honeypot, the required fields, then the two date checks. Dates are whole day numbers;
 a date string `new Date` cannot parse is an invalid date, and every comparison with an
 invalid date is false, as in JavaScript.
 */
module Booking {
  import opened Wrappers

  /** The submitted form: field name to value. A field absent from the map reads as null. */
  type FormData = map<string, string>

  /** The hidden field that only bots fill in. */
  const HONEYPOT: string := "_gotcha"

  const REQUIRED_FIELDS: seq<string> := ["name", "email", "phone", "checkin", "checkout", "guests", "roomType"]

  /** `data.get(field)` is truthy: present and not the empty string. */
  predicate Filled(form: FormData, field: string) {
    field in form && form[field] != ""
  }

  /** `required.filter((field) => !data.get(field))`, keeping the order. */
  function Missing(form: FormData, fields: seq<string>): (r: seq<string>)
    ensures forall f :: f in r <==> f in fields && !Filled(form, f)
    ensures |r| <= |fields|
  {
    if |fields| == 0 then []
    else
      var rest := Missing(form, fields[1..]);
      assert forall f | f in fields :: f == fields[0] || f in fields[1..];
      if Filled(form, fields[0]) then rest else [fields[0]] + rest
  }

  /** A parsed date: a day number counted from the Unix epoch, or the invalid date (NaN). */
  datatype DateValue = Day(day: int) | InvalidDate

  /** JavaScript's `a < b` on dates: false when either is invalid. */
  predicate Before(a: DateValue, b: DateValue) {
    a.Day? && b.Day? && a.day < b.day
  }

  /** JavaScript's `a <= b` on dates: false when either is invalid. */
  predicate AtOrBefore(a: DateValue, b: DateValue) {
    a.Day? && b.Day? && a.day <= b.day
  }

  /** How a submit attempt ends. */
  datatype Verdict = HoneypotTripped | MissingRequired | CheckinInPast | CheckoutNotAfterCheckin | Submit {
    predicate Rejected() {
      this == MissingRequired || this == CheckinInPast || this == CheckoutNotAfterCheckin
    }
  }

  /**
   The check-in and check-out dates of a form (`new Date(data.get(...))`). An absent field
   reads as `null`, and `new Date(null)` is the epoch, day 0, a valid date.
   */
  function CheckIn(form: FormData, parse: string -> DateValue): DateValue {
    if "checkin" in form then parse(form["checkin"]) else Day(0)
  }

  function CheckOut(form: FormData, parse: string -> DateValue): DateValue {
    if "checkout" in form then parse(form["checkout"]) else Day(0)
  }

  /**
   The submit handler's checks, in their order: honeypot, required fields, check-in not
   before `today`, check-out after check-in. `parse` is `new Date` on a field's text.
   */
  function Validate(form: FormData, parse: string -> DateValue, today: int): (v: Verdict)
    ensures v == HoneypotTripped <==> Filled(form, HONEYPOT)
    ensures v == MissingRequired <==>
      !Filled(form, HONEYPOT) && exists f | f in REQUIRED_FIELDS :: !Filled(form, f)
    ensures v == CheckinInPast <==>
      && !Filled(form, HONEYPOT)
      && (forall f | f in REQUIRED_FIELDS :: Filled(form, f))
      && Before(CheckIn(form, parse), Day(today))
    ensures v == CheckoutNotAfterCheckin <==>
      && !Filled(form, HONEYPOT)
      && (forall f | f in REQUIRED_FIELDS :: Filled(form, f))
      && !Before(CheckIn(form, parse), Day(today))
      && AtOrBefore(CheckOut(form, parse), CheckIn(form, parse))
    ensures v == Submit <==>
      && !Filled(form, HONEYPOT)
      && (forall f | f in REQUIRED_FIELDS :: Filled(form, f))
      && !Before(CheckIn(form, parse), Day(today))
      && !AtOrBefore(CheckOut(form, parse), CheckIn(form, parse))
  {
    if Filled(form, HONEYPOT) then HoneypotTripped
    else if |Missing(form, REQUIRED_FIELDS)| > 0 then
      assert Missing(form, REQUIRED_FIELDS)[0] in Missing(form, REQUIRED_FIELDS);
      MissingRequired
    else if Before(CheckIn(form, parse), Day(today)) then CheckinInPast
    else if AtOrBefore(CheckOut(form, parse), CheckIn(form, parse)) then CheckoutNotAfterCheckin
    else Submit
  }

  /** With valid dates, a form is submitted exactly when it is complete, check-in is today or later and check-out is after it. */
  lemma SubmitIffValidStay(form: FormData, parse: string -> DateValue, today: int)
    requires CheckIn(form, parse).Day? && CheckOut(form, parse).Day?
    ensures Validate(form, parse, today) == Submit <==>
      && !Filled(form, HONEYPOT)
      && (forall f | f in REQUIRED_FIELDS :: Filled(form, f))
      && CheckIn(form, parse).day >= today
      && CheckOut(form, parse).day > CheckIn(form, parse).day
  {
  }

  /** A missing field is reported before, and regardless of, any date. */
  lemma MissingReportedBeforeDates(form: FormData, p1: string -> DateValue, t1: int, p2: string -> DateValue, t2: int, f: string)
    requires !Filled(form, HONEYPOT) && f in REQUIRED_FIELDS && !Filled(form, f)
    ensures Validate(form, p1, t1) == MissingRequired
    ensures Validate(form, p1, t1) == Validate(form, p2, t2)
  {
  }

  /**
   As written, an unparseable check-in date passes both date checks, because every
   comparison with an invalid date is false.
   */
  lemma InvalidCheckinIsSubmitted(form: FormData, parse: string -> DateValue, today: int)
    requires !Filled(form, HONEYPOT)
    requires forall f | f in REQUIRED_FIELDS :: Filled(form, f)
    requires CheckIn(form, parse) == InvalidDate
    ensures Validate(form, parse, today) == Submit
  {
  }

  /** A concrete form for which `InvalidCheckinIsSubmitted` applies. */
  lemma InvalidCheckinExample(today: int)
    ensures Validate(ExampleForm(), (s: string) => if s == "soon" then InvalidDate else Day(today + 1), today) == Submit
  {
    var form := ExampleForm();
    assert forall f | f in REQUIRED_FIELDS :: f in form && form[f] != "";
    InvalidCheckinIsSubmitted(form, (s: string) => if s == "soon" then InvalidDate else Day(today + 1), today);
  }

  function ExampleForm(): FormData {
    map["name" := "A", "email" := "a@b", "phone" := "1", "checkin" := "soon",
        "checkout" := "2030-01-02", "guests" := "2", "roomType" := "lux"]
  }

  /**
   The status message the handler leaves: its text and whether it carries the error style.
   This is the page when `#bookingMessage` exists; without it every message write is skipped.
   */
  datatype Notice = Notice(text: string, isError: bool)

  /** The texts the handler shows, one per outcome. */
  const MISSING_TEXT: string := "Будь ласка, заповніть усі обовʼязкові поля."
  const PAST_CHECKIN_TEXT: string := "Дата заїзду не може бути в минулому."
  const CHECKOUT_ORDER_TEXT: string := "Дата виїзду має бути пізніше заїзду."
  const SENDING_TEXT: string := "Надсилаємо заявку..."

  function NoticeFor(v: Verdict): (r: Notice)
    ensures r.isError <==> v.Rejected()
    ensures r.text == "" <==> v == HoneypotTripped
    ensures r.text == MISSING_TEXT <==> v == MissingRequired
    ensures r.text == PAST_CHECKIN_TEXT <==> v == CheckinInPast
    ensures r.text == CHECKOUT_ORDER_TEXT <==> v == CheckoutNotAfterCheckin
    ensures r.text == SENDING_TEXT <==> v == Submit
  {
    match v
    case HoneypotTripped => Notice("", false)
    case MissingRequired => Notice(MISSING_TEXT, true)
    case CheckinInPast => Notice(PAST_CHECKIN_TEXT, true)
    case CheckoutNotAfterCheckin => Notice(CHECKOUT_ORDER_TEXT, true)
    case Submit => Notice(SENDING_TEXT, false)
  }

  /** A form missing a required field shows the fill-in error, whatever its dates say. */
  lemma MissingFieldShowsFillIn(form: FormData, parse: string -> DateValue, today: int, f: string)
    requires !Filled(form, HONEYPOT) && f in REQUIRED_FIELDS && !Filled(form, f)
    ensures NoticeFor(Validate(form, parse, today)) == Notice(MISSING_TEXT, true)
  {
    MissingReportedBeforeDates(form, parse, today, parse, today, f);
  }
}
