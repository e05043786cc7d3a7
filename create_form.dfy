/** The create form of the browser client: the field update on every change event,
    the client-side validation and the normalisation of the submitted body. The
    React state of the component is the class `CreateMovieForm`; the payloads it hands
    to the API client are recorded in `submitted`. */
module CreateForm {
  import opened Optional
  import opened Text

  /** The form inputs, by their `name` attribute. */
  datatype FormField = TitleInput | GenreInput | RatingInput | PosterUrlInput

  /** A JavaScript number as `parseInt` can produce it. */
  datatype JsNumber = Int(n: int) | NaN

  /** The client-side `CreateMovieDto`: the form state and, after normalisation, the
      request body. `None` is `undefined`. */
  datatype CreateMovieDto = CreateMovieDto(
    title: string,
    genre: Option<string>,
    rating: Option<JsNumber>,
    posterUrl: Option<string>)

  const TitleRequiredMessage := "Title is required"
  const RatingRangeMessage := "Rating must be between 1 and 5"

  /** The form state before any input. */
  function InitialForm(): CreateMovieDto
  {
    CreateMovieDto("", Some(""), None, Some(""))
  }

  // ---------------------------------------------------------------------------
  // parseInt(value) with no radix argument.
  // ---------------------------------------------------------------------------

  function DigitValue(c: char): (d: int)
    ensures -1 <= d < 16
  {
    if '0' <= c <= '9' then c as int - '0' as int
    else if 'a' <= c <= 'f' then c as int - 'a' as int + 10
    else if 'A' <= c <= 'F' then c as int - 'A' as int + 10
    else -1
  }

  predicate IsDigit(c: char, radix: int)
  {
    0 <= DigitValue(c) < radix
  }

  /** The longest prefix made of digits of the radix. */
  function DigitPrefix(s: string, radix: int): (r: string)
    ensures IsPrefix(r, s)
    ensures forall i :: 0 <= i < |r| ==> IsDigit(r[i], radix)
    ensures |r| < |s| ==> !IsDigit(s[|r|], radix)
  {
    if s != [] && IsDigit(s[0], radix) then [s[0]] + DigitPrefix(s[1..], radix) else []
  }

  /** The value of a digit string, most significant digit first. */
  function DigitsValue(ds: string, radix: int): int
  {
    if ds == [] then 0
    else DigitsValue(ds[..|ds| - 1], radix) * radix + DigitValue(ds[|ds| - 1])
  }

  /** The text after the sign: "0x" or "0X" selects base 16, and the longest run of
      digits is converted; `None` when no digit follows. */
  function ParseMagnitude(u: string): Option<int>
  {
    var hex := |u| >= 2 && u[0] == '0' && (u[1] == 'x' || u[1] == 'X');
    var digits := if hex then DigitPrefix(u[2..], 16) else DigitPrefix(u, 10);
    if digits == [] then None
    else if hex then Some(DigitsValue(digits, 16))
    else Some(DigitsValue(digits, 10))
  }

  /** A magnitude as a number, negated when a minus sign preceded it; NaN when there
      was no digit. */
  function Signed(negative: bool, magnitude: Option<int>): JsNumber
  {
    match magnitude
    case None => NaN
    case Some(m) => Int(if negative then -m else m)
  }

  /** One optional sign, then the magnitude. */
  function ParseSigned(s: string): JsNumber
  {
    if s != [] && (s[0] == '-' || s[0] == '+') then Signed(s[0] == '-', ParseMagnitude(s[1..]))
    else Signed(false, ParseMagnitude(s))
  }

  /** Leading white space is skipped before the sign and the magnitude. */
  function ParseInt(value: string): JsNumber
  {
    ParseSigned(TrimStart(value))
  }

  /** The decimal numeral of a natural number. */
  function DecimalString(n: nat): (s: string)
    ensures s != [] && forall i :: 0 <= i < |s| ==> IsDigit(s[i], 10)
    ensures |s| > 1 ==> s[0] != '0'
  {
    var last := ['0' + (n % 10) as char];
    if n < 10 then last else DecimalString(n / 10) + last
  }

  lemma {:induction false} DecimalValue(n: nat)
    ensures DigitsValue(DecimalString(n), 10) == n
  {
    var s := DecimalString(n);
    if n >= 10 {
      DecimalValue(n / 10);
      assert s[..|s| - 1] == DecimalString(n / 10);
    }
  }

  lemma {:induction false} AllDigitsPrefix(s: string, radix: int)
    requires forall i :: 0 <= i < |s| ==> IsDigit(s[i], radix)
    ensures DigitPrefix(s, radix) == s
  {
    if s != [] {
      AllDigitsPrefix(s[1..], radix);
    }
  }

  /** A decimal digit is neither white space nor a sign. */
  lemma DecimalDigitIsPlain(c: char)
    requires IsDigit(c, 10)
    ensures '0' <= c <= '9'
    ensures !IsJsWhiteSpace(c) && c != '-' && c != '+' && c != 'x' && c != 'X'
  {
  }

  /** A string that does not start with white space is its own TrimStart. */
  lemma TrimStartNoLeadingSpace(s: string)
    requires s != [] && !IsJsWhiteSpace(s[0])
    ensures TrimStart(s) == s
  {
  }

  /** A run of decimal digits is its own magnitude. */
  lemma MagnitudeOfDigits(s: string)
    requires s != [] && forall i :: 0 <= i < |s| ==> IsDigit(s[i], 10)
    ensures ParseMagnitude(s) == Some(DigitsValue(s, 10))
  {
    AllDigitsPrefix(s, 10);
    if |s| >= 2 {
      DecimalDigitIsPlain(s[1]);
    }
  }

  /** A run of decimal digits is read as its value. */
  lemma ParseIntDigits(s: string)
    requires s != [] && forall i :: 0 <= i < |s| ==> IsDigit(s[i], 10)
    ensures ParseInt(s) == Int(DigitsValue(s, 10))
  {
    DecimalDigitIsPlain(s[0]);
    TrimStartNoLeadingSpace(s);
    MagnitudeOfDigits(s);
  }

  lemma SignedNegative(m: int)
    ensures Signed(true, Some(m)) == Int(-m)
  {
  }

  /** A minus sign in front of text that starts with a digit negates its magnitude. */
  lemma ParseIntMinus(s: string)
    requires s != [] && IsDigit(s[0], 10)
    ensures ParseInt(['-'] + s) == Signed(true, ParseMagnitude(s))
  {
    var m := ['-'] + s;
    assert m[0] == '-';
    assert m[1..] == s;
    TrimStartNoLeadingSpace(m);
  }

  /** `parseInt` reads back every decimal numeral, with or without a minus sign; in
      particular the rating options "1" to "5" give 1 to 5. */
  lemma ParseIntDecimal(n: nat)
    ensures ParseInt(DecimalString(n)) == Int(n)
    ensures ParseInt(['-'] + DecimalString(n)) == Int(-(n as int))
  {
    var s := DecimalString(n);
    DecimalValue(n);
    ParseIntDigits(s);
    ParseIntMinus(s);
    MagnitudeOfDigits(s);
    SignedNegative(n);
  }

  // ---------------------------------------------------------------------------
  // The pure parts of handleChange, validate and handleSubmit.
  // ---------------------------------------------------------------------------

  /** The state update of a change event: the rating input stores `parseInt(value)`,
      or undefined for an empty value; every other input stores the raw text. */
  function ChangeField(d: CreateMovieDto, name: FormField, value: string): (r: CreateMovieDto)
    ensures name == TitleInput ==> r == d.(title := value)
    ensures name == GenreInput ==> r == d.(genre := Some(value))
    ensures name == PosterUrlInput ==> r == d.(posterUrl := Some(value))
    ensures name == RatingInput ==> r.title == d.title && r.genre == d.genre && r.posterUrl == d.posterUrl
    ensures name == RatingInput && value == "" ==> r.rating == None
    ensures name == RatingInput && value != "" ==> r.rating == Some(ParseInt(value))
  {
    match name
    case TitleInput => d.(title := value)
    case GenreInput => d.(genre := Some(value))
    case PosterUrlInput => d.(posterUrl := Some(value))
    case RatingInput => d.(rating := if value == "" then None else Some(ParseInt(value)))
  }

  /** The error shown for a field is truthy: present and not "". */
  predicate HasError(errors: map<FormField, string>, f: FormField)
  {
    f in errors && errors[f] != ""
  }

  /** The error update of a change event: a truthy error of the edited field is set
      to ""; nothing else changes. */
  function ClearError(errors: map<FormField, string>, name: FormField): (r: map<FormField, string>)
    ensures !HasError(r, name)
    ensures r.Keys == errors.Keys
    ensures forall f :: f in errors && f != name ==> r[f] == errors[f]
    ensures !HasError(errors, name) ==> r == errors
  {
    if HasError(errors, name) then errors[name := ""] else errors
  }

  /** A rating is truthy in JavaScript when it is defined, not 0 and not NaN. */
  predicate Truthy(rating: Option<JsNumber>)
  {
    rating.Some? && rating.value.Int? && rating.value.n != 0
  }

  /** The rating check of `validate`: a truthy rating outside 1..5. */
  predicate RatingOutOfRange(rating: Option<JsNumber>)
  {
    Truthy(rating) && (rating.value.n < 1 || rating.value.n > 5)
  }

  /** The error map after the title check of `validate`. */
  function TitleErrors(d: CreateMovieDto): map<FormField, string>
  {
    if Trim(d.title) == "" then map[TitleInput := TitleRequiredMessage] else map[]
  }

  /** The error map `validate` builds. */
  function ValidationErrors(d: CreateMovieDto): (errs: map<FormField, string>)
    ensures errs.Keys <= {TitleInput, RatingInput}
  {
    var titleErrors := TitleErrors(d);
    if RatingOutOfRange(d.rating) then titleErrors[RatingInput := RatingRangeMessage] else titleErrors
  }

  /** A title error exactly for a title of white space only; a rating error exactly
      for a truthy rating outside 1..5; the form is valid exactly when neither holds. */
  lemma ValidationErrorsSpec(d: CreateMovieDto)
    ensures TitleInput in ValidationErrors(d) <==> forall i :: 0 <= i < |d.title| ==> IsJsWhiteSpace(d.title[i])
    ensures RatingInput in ValidationErrors(d) <==>
              exists n :: d.rating == Some(Int(n)) && n != 0 && (n < 1 || n > 5)
    ensures ValidationErrors(d) == map[] <==>
              Trim(d.title) != "" && !(d.rating.Some? && d.rating.value.Int? && d.rating.value.n !in {0, 1, 2, 3, 4, 5})
  {
    TrimEmptyIff(d.title);
    if ValidationErrors(d) == map[] {
      assert TitleInput !in ValidationErrors(d);
    }
  }

  /** No rating, a rating of 0 and NaN are all falsy and so never flagged. */
  lemma FalsyRatingNotFlagged(d: CreateMovieDto)
    requires d.rating == None || d.rating == Some(Int(0)) || d.rating == Some(NaN)
    ensures RatingInput !in ValidationErrors(d)
  {
  }

  /** `x?.trim() || undefined`: undefined stays undefined, a text trimming to "" becomes
      undefined, any other text is trimmed. */
  function TrimOrUndefined(v: Option<string>): (r: Option<string>)
    ensures r.None? <==> v.None? || forall i :: 0 <= i < |v.value| ==> IsJsWhiteSpace(v.value[i])
    ensures r.Some? ==> r.value == Trim(v.value) && r.value != ""
  {
    match v
    case None => None
    case Some(s) =>
      TrimEmptyIff(s);
      if Trim(s) == "" then None else Some(Trim(s))
  }

  /** The body sent on submit: genre and poster URL trimmed (blank becomes undefined),
      title and rating as they are. */
  function Normalize(d: CreateMovieDto): (r: CreateMovieDto)
    ensures r.title == d.title && r.rating == d.rating
    ensures r.genre == TrimOrUndefined(d.genre) && r.posterUrl == TrimOrUndefined(d.posterUrl)
  {
    d.(genre := TrimOrUndefined(d.genre), posterUrl := TrimOrUndefined(d.posterUrl))
  }

  /** Normalising a normalised body changes nothing, and it never holds a blank or
      untrimmed genre or poster URL. */
  lemma NormalizeIdempotent(d: CreateMovieDto)
    ensures Normalize(Normalize(d)) == Normalize(d)
    ensures var r := Normalize(d);
            && (r.genre.Some? ==> r.genre.value != "" && Trim(r.genre.value) == r.genre.value)
            && (r.posterUrl.Some? ==> r.posterUrl.value != "" && Trim(r.posterUrl.value) == r.posterUrl.value)
  {
    if d.genre.Some? {
      TrimIdempotent(d.genre.value);
    }
    if d.posterUrl.Some? {
      TrimIdempotent(d.posterUrl.value);
    }
  }

  /** `Object.keys(m).length === 0` holds exactly for the empty map. */
  lemma NoKeysIffEmpty(m: map<FormField, string>)
    ensures |m.Keys| == 0 <==> m == map[]
  {
    if |m.Keys| == 0 {
      assert forall f :: f !in m.Keys;
    }
  }

  // ---------------------------------------------------------------------------
  // The component state.
  // ---------------------------------------------------------------------------

  class CreateMovieForm {
    var formData: CreateMovieDto
    var errors: map<FormField, string>
    /** The bodies passed to `movieService.createMovie`, in order. */
    var submitted: seq<CreateMovieDto>

    constructor ()
      ensures formData == InitialForm() && errors == map[] && submitted == []
    {
      formData := InitialForm();
      errors := map[];
      submitted := [];
    }

    /** handleChange for the input `name` now holding `value`. */
    method HandleChange(name: FormField, value: string)
      modifies this
      ensures formData == ChangeField(old(formData), name, value)
      ensures errors == ClearError(old(errors), name)
      ensures submitted == old(submitted)
    {
      formData := ChangeField(formData, name, value);
      if HasError(errors, name) {
        errors := errors[name := ""];
      }
    }

    /** validate: builds a fresh error map, replaces the old one with it entirely and
        reports whether it is empty. */
    method Validate() returns (ok: bool)
      modifies this
      ensures formData == old(formData) && submitted == old(submitted)
      ensures errors == ValidationErrors(formData)
      ensures ok <==> errors == map[]
    {
      var d := formData;
      var newErrors: map<FormField, string> := map[];
      if Trim(d.title) == "" {
        newErrors := newErrors[TitleInput := TitleRequiredMessage];
      }
      assert newErrors == TitleErrors(d);
      if RatingOutOfRange(d.rating) {
        newErrors := newErrors[RatingInput := RatingRangeMessage];
      }
      assert newErrors == ValidationErrors(d);
      errors := newErrors;
      NoKeysIffEmpty(newErrors);
      ok := |newErrors.Keys| == 0;
    }

    /** handleSubmit: nothing is sent when validation fails; otherwise the normalised
        body is sent once. */
    method HandleSubmit()
      modifies this
      ensures formData == old(formData)
      ensures errors == ValidationErrors(old(formData))
      ensures ValidationErrors(old(formData)) != map[] ==> submitted == old(submitted)
      ensures ValidationErrors(old(formData)) == map[] ==> submitted == old(submitted) + [Normalize(old(formData))]
    {
      var ok := Validate();
      if !ok {
        return;
      }
      var dataToSubmit := Normalize(formData);
      submitted := submitted + [dataToSubmit];
    }
  }
}
