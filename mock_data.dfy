/**
 * simulateUserData's table: five parallel arrays of sample identities, one
 * row chosen by (int) (Math.random() * 5).
 */
module MockData {
  import opened Text
  import opened Validation

  const Nombres: seq<string> := ["Juan Pérez", "Ana López", "Carlos Ruiz", "María Torres", "Pedro García"]
  const Sexos: seq<string> := ["Masculino", "Femenino", "Masculino", "Femenino", "Masculino"]
  const Edades: seq<string> := ["30", "25", "40", "35", "28"]
  const Residencias: seq<string> := ["Madrid", "Barcelona", "Valencia", "Sevilla", "Bilbao"]
  const Nacionalidades: seq<string> := ["Española", "Mexicana", "Argentina", "Colombiana", "Chilena"]

  /** The number of rows, nombres.length in the source. */
  const RowCount: nat := 5

  /** The five fields written from row idx, all from the same row. */
  function Row(idx: nat): Form
    requires idx < RowCount
  {
    Form(Nombres[idx], Sexos[idx], Edades[idx], Residencias[idx], Nacionalidades[idx])
  }

  /** f is one of the table's rows. */
  predicate IsRow(f: Form) {
    exists idx :: 0 <= idx < RowCount && f == Row(idx)
  }

  /**
   * (int) (r * nombres.length) for a draw r of Math.random(): the cast truncates,
   * which for a non-negative product is the floor, so each row owns one fifth of [0, 1).
   */
  function PickIndex(r: real): (idx: nat)
    requires 0.0 <= r < 1.0
    ensures idx < RowCount
    ensures idx as real <= r * 5.0 < idx as real + 1.0
  {
    (r * 5.0).Floor
  }

  /** Every row of the table is a form validateForm accepts. */
  lemma EveryRowValidates(idx: nat)
    requires idx < RowCount
    ensures Validate(Row(idx)) == Accepted
  {
    var f := Row(idx);
    FieldsNotBlank(idx);
    AgeInRange(idx);
    NotDenied(idx);
    NationalityTrimmed(idx);
    assert Acceptable(f);
    ValidateAcceptsExactly(f);
  }

  lemma FieldsNotBlank(idx: nat)
    requires idx < RowCount
    ensures !AnyBlank(Row(idx))
  {
    var f := Row(idx);
    assert !IsBlankChar(f.nombre[0]) && !IsBlankChar(f.sexo[0]) && !IsBlankChar(f.edad[0]);
    assert !IsBlankChar(f.residencia[0]) && !IsBlankChar(f.nacionalidad[0]);
  }

  /** Each row's age text is read as 30, 25, 40, 35 or 28, all from 1 to 120. */
  lemma AgeInRange(idx: nat)
    requires idx < RowCount
    ensures Age(Row(idx)).Some? && MinAge <= Age(Row(idx)).value <= MaxAge
  {
    var n: nat := [30, 25, 40, 35, 28][idx];
    var s := Edades[idx];
    assert s == FormatNat(n / 10) + [DigitChar(n % 10)];
    assert s == FormatInt(n);
    FormattedAgeParses(n);
  }

  /** No nationality of the table has surrounding blanks. */
  lemma NationalityTrimmed(idx: nat)
    requires idx < RowCount
    ensures Trim(Nacionalidades[idx]) == Nacionalidades[idx]
  {
    var s := Nacionalidades[idx];
    assert s[|s| - 1] == 'a';
    TrimOfUntrimmed(s);
  }

  /** No nationality of the table equals a denylisted one ignoring case. */
  lemma NotDenied(idx: nat)
    requires idx < RowCount
    ensures !IsDenied(Nacionalidades[idx])
  {
    var s := Nacionalidades[idx];
    forall k | 0 <= k < |Denylist| ensures !EqualsIgnoreCase(s, Denylist[k]) {
      NotEqualsIgnoreCase(s, Denylist[k], 0);
    }
  }
}
