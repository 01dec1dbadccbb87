# Nationality check with a fingerprint scan, in Dafny

This project models `MainActivity` of the Android app *Ejercicio_Nacionalidad_con_huella*. The screen has one button. It starts a biometric prompt and a stopwatch. When the fingerprint is accepted, the screen fills an identity form with a row chosen at random from a built-in table, shows the total time, and validates the form. When the print is not recognised or the prompt reports an error, the stopwatch stops and the status label says why.

The model has six modules:

- `Wrappers`: `Option`.
- `Text`: the Java library calls that the validator relies on.
  - `String.trim()` removes every leading and trailing char at most U+0020.
  - `String.equalsIgnoreCase()` is modelled with ASCII case folding.
  - `Integer.parseInt()` takes an optional sign and then at least one digit. The value must fit in 32 bits. Anything else is `None`, which stands for the `NumberFormatException`.
- `Stopwatch`: how the label splits a `long` count of milliseconds into minutes, seconds and milliseconds. It uses Java's truncating `/` and `%` and the narrowing `(int)` cast.
- `Validation`: `validateForm`.
  - Its five fields are checked in the source's order. The first failed check decides the message.
  - The checks are kept as a list, `Checks`, that `FirstFailure` walks. `ValidateAsGuards` proves this is the chain of early returns the method is written as.
  - A field whose `trim()` is empty is exactly a blank field (`Text.Trim`'s contract), so the first check reads `AnyBlank`.
- `MockData`: the five parallel arrays of `simulateUserData`. It also models the draw `(int) (Math.random() * 5)`.
- `Activity`: the class `MainActivity`.
  - The views become fields: the status label, the timer label, the form's and the progress bar's visibility, and the five text fields.
  - The stopwatch state is also fields: `startTime`, `isTimerRunning` and `timerRunnable`.
  - `queued` is the set of runnables posted to `timerHandler` and not yet run or removed.
  - The clock reading and the random draw are parameters.
  - `Valid()` says that at most one display callback is pending. That callback is the current runnable, and none is pending once the running flag is cleared.

## Model

| member | source | states |
|---|---|---|
| Text.Trim | app/src/main/java/com/example/nationality_biometrics/MainActivity.java:205-209 | trim() returns an infix s[a..b] of the text, where the prefix before a and the suffix after b are all chars at most U+0020. The result is empty exactly when the text is blank. Otherwise it starts and ends with a char above U+0020. |
| Text.TrimIdempotent | app/src/main/java/com/example/nationality_biometrics/MainActivity.java:205-209 | Trimming a trimmed field changes nothing. |
| Text.EqualsIgnoreCase | app/src/main/java/com/example/nationality_biometrics/MainActivity.java:229-234 | equalsIgnoreCase: the two texts have the same length and agree at every position once ASCII letters are folded to lower case. |
| Text.EqualsIgnoreCaseEquivalence | app/src/main/java/com/example/nationality_biometrics/MainActivity.java:229-234 | Case-insensitive equality is reflexive, symmetric and transitive. |
| Text.NotEqualsIgnoreCase | app/src/main/java/com/example/nationality_biometrics/MainActivity.java:229-234 | Strings of different lengths, or with one position that differs after folding, are not equal ignoring case. |
| Text.ParseInt | app/src/main/java/com/example/nationality_biometrics/MainActivity.java:218 | A value parseInt returns is a 32-bit int. It comes from a non-empty text that is digits after an optional sign. A negative value needs a leading '-'. |
| Text.DigitsValueFormatNat | app/src/main/java/com/example/nationality_biometrics/MainActivity.java:218 | The value of the decimal numeral of n is n. |
| Text.ParseFormatRoundTrip | app/src/main/java/com/example/nationality_biometrics/MainActivity.java:218 | parseInt reads the decimal text of every 32-bit int back as that int. |
| Text.ParsePlusSign | app/src/main/java/com/example/nationality_biometrics/MainActivity.java:218 | A leading '+' is accepted and does not change the value. |
| Text.ParseOverflow | app/src/main/java/com/example/nationality_biometrics/MainActivity.java:218-226 | Every numeral above the largest int, and every '-' numeral below the smallest, is refused (NumberFormatException), so it takes the "not numeric" path. |
| Stopwatch.JavaDiv | app/src/main/java/com/example/nationality_biometrics/MainActivity.java:145-146 | Long division truncates toward zero. For a non-negative dividend it is the floor. For a negative one it is the ceiling. |
| Stopwatch.JavaRem | app/src/main/java/com/example/nationality_biometrics/MainActivity.java:146-147 | The remainder takes the dividend's sign and completes the truncating quotient: q*b + r == a. |
| Stopwatch.ToInt32 | app/src/main/java/com/example/nationality_biometrics/MainActivity.java:145-147 | The (int) cast gives a 32-bit value that differs from the long by a multiple of 2^32, so it keeps the low 32 bits. It keeps every value already in range. |
| Stopwatch.Decompose | app/src/main/java/com/example/nationality_biometrics/MainActivity.java:144-147 | For every count, the minutes are a 32-bit int, the seconds lie strictly between -60 and 60, and the milliseconds strictly between -1000 and 1000. |
| Stopwatch.DivNested | app/src/main/java/com/example/nationality_biometrics/MainActivity.java:145-147 | Minutes computed as millis/60000 agree with the seconds computed as (millis/1000)%60. Together they cover millis%60000. |
| Stopwatch.DecomposeNonNegative | app/src/main/java/com/example/nationality_biometrics/MainActivity.java:144-147 | For any count the (int) cast keeps, the minutes are at least 0, the seconds are in 0..59 and the milliseconds in 0..999. The three add back up to the count. |
| Stopwatch.DecomposeNegative | app/src/main/java/com/example/nationality_biometrics/MainActivity.java:144-147 | For a negative count every part is at most zero, the seconds are above -60 and the milliseconds above -1000. The parts still add up to the count. |
| Stopwatch.DecomposeCompose | app/src/main/java/com/example/nationality_biometrics/MainActivity.java:189-192 | Splitting a well-formed reading's total gives back the same minutes, seconds and milliseconds. |
| Stopwatch.DecomposeStrictlyMonotone | app/src/main/java/com/example/nationality_biometrics/MainActivity.java:144-149 | A later non-negative count always displays a strictly later mm:ss.SSS reading. |
| Validation.Message | app/src/main/java/com/example/nationality_biometrics/MainActivity.java:211-237 | The four status texts validateForm sets, one per failed check. |
| Validation.Validate | app/src/main/java/com/example/nationality_biometrics/MainActivity.java:204-240 | validateForm's verdict: the first of the ordered checks the fields fail, or acceptance. Its meaning is stated by ValidateAsGuards and ValidateAcceptsExactly. |
| Validation.FirstFailureAccepts | app/src/main/java/com/example/nationality_biometrics/MainActivity.java:211-239 | A sequence of early-return checks returns true exactly when every check passes. |
| Validation.ValidateAsGuards | app/src/main/java/com/example/nationality_biometrics/MainActivity.java:211-239 | The ordered list of checks is the method's own chain: blank field, then parseInt failure, then age <= 0 or > 120, then a denylisted nationality, else true. |
| Validation.ValidateAcceptsExactly | app/src/main/java/com/example/nationality_biometrics/MainActivity.java:204-240 | validateForm returns true exactly when no field is blank, the trimmed age parses to a number from 1 to 120, and the trimmed nationality matches no denylisted name in any letter case. |
| Validation.RejectsBlankField | app/src/main/java/com/example/nationality_biometrics/MainActivity.java:211-215 | Any blank field gives "Por favor, completa todos los campos.", whatever the other fields hold. |
| Validation.RejectsNonNumericAge | app/src/main/java/com/example/nationality_biometrics/MainActivity.java:223-225 | With no field blank, an age parseInt refuses gives the "valor numérico." message. |
| Validation.RejectsAgeOutOfRange | app/src/main/java/com/example/nationality_biometrics/MainActivity.java:219-222 | A parsed age below 1 or above 120 gives the "valor numérico válido." message. This check comes before the nationality check. |
| Validation.RejectsDeniedNationality | app/src/main/java/com/example/nationality_biometrics/MainActivity.java:228-237 | With the other fields in order, a trimmed nationality equal to any of the six denylisted names, ignoring case, gives "Nacionalidad no permitida.". |
| Validation.RejectsDenylistedVariant | app/src/main/java/com/example/nationality_biometrics/MainActivity.java:229-237 | Every case variant of a denylisted name is refused, for any valid age written in decimal. Examples are "usa" and "GUATEMALA". |
| Validation.TrimOfUntrimmed | app/src/main/java/com/example/nationality_biometrics/MainActivity.java:205-209 | A text that neither starts nor ends with a char at most U+0020 is its own trim. |
| Validation.FormattedAgeParses | app/src/main/java/com/example/nationality_biometrics/MainActivity.java:207-218 | An age from 1 to 120 written in decimal survives trim() and parses back to itself. |
| Validation.AcceptsEveryAgeInRange | app/src/main/java/com/example/nationality_biometrics/MainActivity.java:217-222 | Every age from 1 to 120 passes. Only blank fields or the nationality can then refuse the form. |
| MockData.Row | app/src/main/java/com/example/nationality_biometrics/MainActivity.java:172-184 | Row idx takes all five fields from position idx of the five parallel arrays. |
| MockData.PickIndex | app/src/main/java/com/example/nationality_biometrics/MainActivity.java:178 | (int)(r * 5) for r in [0, 1) is a valid row index. Each row owns one fifth of [0, 1). |
| MockData.EveryRowValidates | app/src/main/java/com/example/nationality_biometrics/MainActivity.java:172-176 | Every row of the table passes validateForm, so "Datos cargados correctamente" is always shown. |
| MockData.FieldsNotBlank | app/src/main/java/com/example/nationality_biometrics/MainActivity.java:172-176 | No field of any row is blank. |
| MockData.AgeInRange | app/src/main/java/com/example/nationality_biometrics/MainActivity.java:174 | Each row's age parses to a number from 1 to 120. |
| MockData.NationalityTrimmed | app/src/main/java/com/example/nationality_biometrics/MainActivity.java:176 | No row's nationality has surrounding blanks. |
| MockData.NotDenied | app/src/main/java/com/example/nationality_biometrics/MainActivity.java:176 | No row's nationality equals a denylisted name in any letter case. |
| Activity.Status.Text | app/src/main/java/com/example/nationality_biometrics/MainActivity.java:76-119 | The status label's text for each state, including the error text built from errString and the message of each refused check. |
| Activity.MainActivity.constructor | app/src/main/java/com/example/nationality_biometrics/MainActivity.java:24-28 | The stopwatch starts stopped, with no runnable and nothing queued. The invariant holds. |
| Activity.MainActivity.ScanFingerprint | app/src/main/java/com/example/nationality_biometrics/MainActivity.java:75-79 | The status says scanning, the form is hidden and progress is shown. The stopwatch runs from `now`. A fresh runnable joins whatever was queued. The invariant holds afterwards exactly when nothing was queued before. |
| Activity.MainActivity.ScanFingerprintCorrected | app/src/main/java/com/example/nationality_biometrics/MainActivity.java:75-79 | The same scan with the corrected start: the invariant is kept and exactly the fresh runnable is queued. |
| Activity.MainActivity.StartTimerAsWritten | app/src/main/java/com/example/nationality_biometrics/MainActivity.java:138-156 | As written: the new runnable joins the queue and any earlier one stays there. |
| Activity.MainActivity.StartTimer | app/src/main/java/com/example/nationality_biometrics/MainActivity.java:138-156 | Corrected: afterwards the only queued runnable is the new one, and the invariant holds. |
| Activity.MainActivity.RunTimerCallback | app/src/main/java/com/example/nationality_biometrics/MainActivity.java:143-153 | The label shows the running time since startTime. The runnable re-posts itself only while the flag is set. The invariant is kept. |
| Activity.MainActivity.StopTimer | app/src/main/java/com/example/nationality_biometrics/MainActivity.java:161-164 | The flag is cleared and only the current runnable leaves the queue. Under the invariant nothing stays queued. |
| Activity.MainActivity.OnAuthenticationSucceeded | app/src/main/java/com/example/nationality_biometrics/MainActivity.java:85-94 | The stopwatch stops, progress is hidden, and the form shows the drawn row with the total time. The final status is "Datos cargados correctamente". |
| Activity.MainActivity.OnAuthenticationFailed | app/src/main/java/com/example/nationality_biometrics/MainActivity.java:98-107 | Progress is hidden, the status says the print was not recognised, and the stopwatch stops. |
| Activity.MainActivity.OnAuthenticationError | app/src/main/java/com/example/nationality_biometrics/MainActivity.java:110-123 | The stopwatch stops and progress is hidden. Error code 13, the cancel button, gives the cancel message. Any other code gives the error message with errString. |
| Activity.MainActivity.SimulateUserData | app/src/main/java/com/example/nationality_biometrics/MainActivity.java:170-198 | All five fields come from the same row PickIndex(r). The form is shown, the label shows the total time, and the status ends as "Datos cargados correctamente". |
| Activity.MainActivity.ValidateForm | app/src/main/java/com/example/nationality_biometrics/MainActivity.java:204-240 | Returns true exactly when Validate accepts the fields. A refusal sets its message and an acceptance leaves the status alone. A table row is always accepted. |
| Activity.MainActivity.OnDestroy | app/src/main/java/com/example/nationality_biometrics/MainActivity.java:243-249 | Only the current runnable, if any, leaves the queue. Under the invariant nothing stays queued. |
| Activity.ScanThenSucceed | app/src/main/java/com/example/nationality_biometrics/MainActivity.java:75-94 | From a state with nothing queued, a scan followed by success leaves nothing queued and the form showing one row of the table. It also leaves the elapsed time since the scan on the label and "Datos cargados correctamente". |
| Activity.ScanThenFail | app/src/main/java/com/example/nationality_biometrics/MainActivity.java:98-107 | From a state with nothing queued, a scan followed by an unrecognised print leaves the form hidden, progress hidden and nothing queued. |
| Activity.ScanThenCancel | app/src/main/java/com/example/nationality_biometrics/MainActivity.java:110-120 | From a state with nothing queued, a scan followed by the cancel button leaves the form hidden, nothing queued and the cancel message. |
| Activity.StopTimerTwice | app/src/main/java/com/example/nationality_biometrics/MainActivity.java:161-164 | Stopping twice changes only the flag and the queue, as stopping once does, and leaves them as stopping once leaves them. |
| Activity.RestartLeavesStaleCallback | app/src/main/java/com/example/nationality_biometrics/MainActivity.java:138-164 | With startTimer as written, two starts before a success leave one runnable queued. When it runs, the total-time label becomes a running-time label. |
| Activity.RestartWithCorrectedTimer | app/src/main/java/com/example/nationality_biometrics/MainActivity.java:138-164 | With the corrected start, the same sequence leaves nothing queued and the total time on the label. |

## Left out

- onCreate, initializeViews and setupListeners (lines 30-70) only look up views and attach the click listener, so they are not modelled. A click is modelled as a call of `ScanFingerprint`.
- The BiometricPrompt, its PromptInfo, the executor and `authenticate` are not modelled. The prompt itself is platform code. Its three callbacks are methods, each run to completion on the UI thread, which is what `runOnUiThread` ensures.
- `String.format` of the two time labels is not modelled. `TimeLabel` keeps the elapsed milliseconds and `Parts` gives the three numbers shown. The `%02d` padding is not modelled.
- Activity.MainActivity.RunTimerCallback: the 50 ms delay of `postDelayed` and the queue's order are not modelled. The handler's queue is the set of runnables waiting to run.
- `SystemClock.elapsedRealtime()` is the parameter `now`. Integers are unbounded, so a `long` overflow of `now - startTime` is not modelled. It would take about 292 million years of uptime.
- MockData.PickIndex: `Math.random()` is a real `r` in [0, 1), not a double. Rounding of `r * 5` in floating point is not modelled.
- Text.EqualsIgnoreCase: Java folds case per Unicode char; the model folds only ASCII letters. Java also matches a few non-ASCII chars to the denylisted names: 'ı' (U+0131) upper-cases to 'I' and 'ſ' (U+017F) to 'S', and 'İ' (U+0130) lower-cases to 'i', so Java refuses "Estadounıdense", "Eſtados Unidos" and "Estados Unİdos". The model accepts all three. These examples are not exhaustive.
- Text.ParseInt: Java also accepts non-ASCII decimal digits (for example Arabic-Indic digits). The model accepts only '0'..'9'.
- Activity.Status.Text: the label's initial text from the layout file is not part of this model (`FromLayout`).
- Activity.MainActivity.constructor: the layout's initial visibilities and field texts are not part of this model. The constructor starts with a hidden form, hidden progress and empty fields.
- Activity.MainActivity.OnAuthenticationError: `errString` is a text. A null `CharSequence`, which Java would print as "null", is not modelled.
- `super.onCreate` and `super.onDestroy` are not modelled. The `timerHandler != null` test of onDestroy is always true, because the field is initialised where it is declared.
- `BiometricPrompt.ERROR_NEGATIVE_BUTTON` is defined in the androidx biometric library, not in this file. The model uses that library's value, 13.

## Findings

| source | as written | input that shows it | evidently intended | confidence | as-written member | corrected member |
|---|---|---|---|---|---|---|
| app/src/main/java/com/example/nationality_biometrics/MainActivity.java:138-164 | startTimer posts a new runnable without removing the one an earlier start posted. stopTimer then removes only the newest one. | Two presses of the scan button before any result, then a successful authentication. The first runnable stays queued after stopTimer. When it runs it replaces "Tiempo total: ..." with a running "Tiempo: ..." label. | Starting the stopwatch removes the previous runnable, so stopping it leaves no display callback queued. | not executed; needs a second press before the first prompt returns a result | Activity.MainActivity.StartTimerAsWritten, Activity.MainActivity.ScanFingerprint, Activity.RestartLeavesStaleCallback | Activity.MainActivity.StartTimer, Activity.MainActivity.ScanFingerprintCorrected, Activity.RestartWithCorrectedTimer |
