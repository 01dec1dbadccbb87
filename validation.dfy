/**
 * validateForm: the five form fields are checked in a fixed order and the
 * first check that fails decides the status message.
 */
module Validation {
  import opened Wrappers
  import opened Text

  /** The text of the five form fields: name, sex, age, residence, nationality. */
  datatype Form = Form(nombre: string, sexo: string, edad: string, residencia: string, nacionalidad: string)

  /** The check that refused the form. */
  datatype Reason = Incomplete | AgeNotNumeric | AgeOutOfRange | NationalityDenied

  /** Accepted leaves the status label alone; Rejected names the check whose message is shown. */
  datatype Verdict = Accepted | Rejected(reason: Reason)

  /** The status text validateForm sets for each refusal. */
  function Message(r: Reason): string {
    match r
    case Incomplete => "Por favor, completa todos los campos."
    case AgeNotNumeric => "Edad inválida. Ingresa un valor numérico."
    case AgeOutOfRange => "Edad inválida. Ingresa un valor numérico válido."
    case NationalityDenied => "Nacionalidad no permitida."
  }

  const MinAge: int := 1
  const MaxAge: int := 120

  /** The nationalities the form refuses, compared ignoring case. */
  const Denylist: seq<string> := ["Guatemala", "Guatemalteca", "Estados Unidos", "Estadounidense", "EE.UU", "USA"]

  predicate IsDenied(nacionalidad: string) {
    exists k :: 0 <= k < |Denylist| && EqualsIgnoreCase(nacionalidad, Denylist[k])
  }

  predicate AnyBlank(f: Form) {
    IsBlank(f.nombre) || IsBlank(f.sexo) || IsBlank(f.edad) || IsBlank(f.residencia) || IsBlank(f.nacionalidad)
  }

  /** The age the form holds, as parseInt reads its trimmed text. */
  function Age(f: Form): Option<int> {
    ParseInt(Trim(f.edad))
  }

  /**
   * What an accepted form is, stated without the order of the checks: every
   * field has a char above U+0020, the age is a number from 1 to 120, and the
   * trimmed nationality is none of the denylisted ones in any letter case.
   */
  predicate Acceptable(f: Form) {
    !AnyBlank(f) &&
    Age(f).Some? && MinAge <= Age(f).value <= MaxAge &&
    !IsDenied(Trim(f.nacionalidad))
  }

  /** The tests validateForm makes, in the order it makes them. */
  datatype Check = Complete | AgeNumeric | AgeBounded | NationalityAllowed

  const Checks: seq<Check> := [Complete, AgeNumeric, AgeBounded, NationalityAllowed]

  /**
   * Whether f gets past one test. A field whose trim() is empty is exactly a
   * blank one (Text.Trim's contract), so the first test reads AnyBlank.
   */
  predicate Passes(f: Form, c: Check) {
    match c
    case Complete => !AnyBlank(f)
    case AgeNumeric => Age(f).Some?
    case AgeBounded => Age(f).Some? && !(Age(f).value <= 0 || Age(f).value > 120)
    case NationalityAllowed => !IsDenied(Trim(f.nacionalidad))
  }

  function ReasonOf(c: Check): Reason {
    match c
    case Complete => Incomplete
    case AgeNumeric => AgeNotNumeric
    case AgeBounded => AgeOutOfRange
    case NationalityAllowed => NationalityDenied
  }

  /** The tests of cs in turn: the first one f fails returns false with its message. */
  function FirstFailure(f: Form, cs: seq<Check>): Verdict {
    if cs == [] then Accepted
    else if !Passes(f, cs[0]) then Rejected(ReasonOf(cs[0]))
    else FirstFailure(f, cs[1..])
  }

  /** validateForm on the fields' current text. */
  function Validate(f: Form): Verdict {
    FirstFailure(f, Checks)
  }

  /** A list of tests accepts exactly when every test passes. */
  lemma {:induction false} FirstFailureAccepts(f: Form, cs: seq<Check>)
    ensures FirstFailure(f, cs) == Accepted <==> forall i :: 0 <= i < |cs| ==> Passes(f, cs[i])
  {
    if cs != [] {
      FirstFailureAccepts(f, cs[1..]);
      if Passes(f, cs[0]) {
        forall i | 1 <= i < |cs| ensures cs[i] == cs[1..][i - 1] {}
      }
    }
  }

  /** Validate is the chain of early returns validateForm is written as. */
  lemma ValidateAsGuards(f: Form)
    ensures Validate(f) ==
      if AnyBlank(f) then Rejected(Incomplete)
      else if Age(f).None? then Rejected(AgeNotNumeric)
      else if Age(f).value <= 0 || Age(f).value > 120 then Rejected(AgeOutOfRange)
      else if IsDenied(Trim(f.nacionalidad)) then Rejected(NationalityDenied)
      else Accepted
  {
    var c1, c2, c3 := Checks[1..], Checks[2..], Checks[3..];
    assert c1[0] == AgeNumeric && c1[1..] == c2;
    assert c2[0] == AgeBounded && c2[1..] == c3;
    assert c3[0] == NationalityAllowed && c3[1..] == [];
    assert Validate(f) == if AnyBlank(f) then Rejected(Incomplete) else FirstFailure(f, c1);
    assert FirstFailure(f, c1) == if Age(f).None? then Rejected(AgeNotNumeric) else FirstFailure(f, c2);
    if Age(f).Some? {
      assert FirstFailure(f, c2) ==
        if Age(f).value <= 0 || Age(f).value > 120 then Rejected(AgeOutOfRange) else FirstFailure(f, c3);
    }
    assert FirstFailure(f, c3) == if IsDenied(Trim(f.nacionalidad)) then Rejected(NationalityDenied) else Accepted;
  }

  /** validateForm accepts exactly the acceptable forms. */
  lemma ValidateAcceptsExactly(f: Form)
    ensures Validate(f) == Accepted <==> Acceptable(f)
  {
    ValidateAsGuards(f);
    if AnyBlank(f) {
      assert Validate(f) == Rejected(Incomplete);
    } else {
      assert Trim(f.nombre) != [] && Trim(f.sexo) != [] && Trim(f.edad) != [];
      assert Trim(f.residencia) != [] && Trim(f.nacionalidad) != [];
      match Age(f)
      case None =>
        assert Validate(f) == Rejected(AgeNotNumeric);
      case Some(n) =>
        if n <= 0 || n > 120 {
          assert Validate(f) == Rejected(AgeOutOfRange);
        } else if IsDenied(Trim(f.nacionalidad)) {
          assert Validate(f) == Rejected(NationalityDenied);
        } else {
          assert Validate(f) == Accepted;
        }
    }
  }

  /** A blank field is reported first, whatever the age and nationality hold. */
  lemma RejectsBlankField(f: Form)
    requires AnyBlank(f)
    ensures Validate(f) == Rejected(Incomplete)
  {
    ValidateAsGuards(f);
  }

  /** With every field filled in, an age parseInt refuses is reported next. */
  lemma RejectsNonNumericAge(f: Form)
    requires !AnyBlank(f) && Age(f).None?
    ensures Validate(f) == Rejected(AgeNotNumeric)
  {
    ValidateAsGuards(f);
  }

  /** A number that is not from 1 to 120 is refused before the nationality is looked at. */
  lemma RejectsAgeOutOfRange(f: Form)
    requires !AnyBlank(f) && Age(f).Some?
    requires Age(f).value < MinAge || Age(f).value > MaxAge
    ensures Validate(f) == Rejected(AgeOutOfRange)
  {
    ValidateAsGuards(f);
  }

  /** A nationality equal to a denylisted one in any letter case, with or without
      surrounding blanks, is refused once the other fields are in order. */
  lemma RejectsDeniedNationality(f: Form, k: nat)
    requires !AnyBlank(f) && Age(f).Some? && MinAge <= Age(f).value <= MaxAge
    requires k < |Denylist| && EqualsIgnoreCase(Trim(f.nacionalidad), Denylist[k])
    ensures Validate(f) == Rejected(NationalityDenied)
  {
    ValidateAsGuards(f);
  }

  /** Any case variant of a denylisted name is refused (a case variant is a string
      equal to the name ignoring case). */
  lemma RejectsDenylistedVariant(nombre: string, sexo: string, n: int, residencia: string,
                                 variant: string, k: nat)
    requires !IsBlank(nombre) && !IsBlank(sexo) && !IsBlank(residencia)
    requires MinAge <= n <= MaxAge
    requires k < |Denylist| && EqualsIgnoreCase(variant, Denylist[k])
    ensures Validate(Form(nombre, sexo, FormatInt(n), residencia, variant)) == Rejected(NationalityDenied)
  {
    var f := Form(nombre, sexo, FormatInt(n), residencia, variant);
    FormattedAgeParses(n);
    assert variant[0] != ' ' && variant[|variant| - 1] != ' ' by {
      DenylistEndsAreNotBlank(k);
      assert LowerChar(variant[0]) == LowerChar(Denylist[k][0]);
      assert LowerChar(variant[|variant| - 1]) == LowerChar(Denylist[k][|variant| - 1]);
    }
    TrimOfUntrimmed(variant);
    RejectsDeniedNationality(f, k);
  }

  lemma DenylistEndsAreNotBlank(k: nat)
    requires k < |Denylist|
    ensures |Denylist[k]| > 0
    ensures 'A' <= Denylist[k][0] <= 'Z'
    ensures !IsBlankChar(LowerChar(Denylist[k][|Denylist[k]| - 1]))
  {
  }

  /** A string that neither starts nor ends with a char at most U+0020 is its own trim. */
  lemma TrimOfUntrimmed(s: string)
    requires s != [] && !IsBlankChar(s[0]) && !IsBlankChar(s[|s| - 1])
    ensures Trim(s) == s
  {
    assert TrimStart(s) == s;
  }

  /** The decimal text of an age is read back as that age. */
  lemma FormattedAgeParses(n: int)
    requires MinAge <= n <= MaxAge
    ensures Trim(FormatInt(n)) == FormatInt(n)
    ensures ParseInt(Trim(FormatInt(n))) == Some(n)
  {
    var s := FormatInt(n);
    TrimOfUntrimmed(s);
    ParseFormatRoundTrip(n);
  }

  /** Every age from 1 to 120, written in decimal, passes: only the nationality and
      the other fields can still refuse the form. */
  lemma AcceptsEveryAgeInRange(nombre: string, sexo: string, n: int, residencia: string, nacionalidad: string)
    requires !IsBlank(nombre) && !IsBlank(sexo) && !IsBlank(residencia) && !IsBlank(nacionalidad)
    requires !IsDenied(Trim(nacionalidad))
    requires MinAge <= n <= MaxAge
    ensures Validate(Form(nombre, sexo, FormatInt(n), residencia, nacionalidad)) == Accepted
  {
    FormattedAgeParses(n);
    ValidateAsGuards(Form(nombre, sexo, FormatInt(n), residencia, nacionalidad));
  }
}
