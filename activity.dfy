/**
 * The screen controller: the scan button, the three authentication
 * callbacks, the stopwatch and its self-reposting callback, the mock-data
 * fill and onDestroy. Views become fields; the clock reading and the draw of
 * Math.random() are parameters; the handler's message queue is the set of
 * runnables posted to it and not yet run or removed.
 */
module Activity {
  import opened Stopwatch
  import opened Validation
  import opened MockData

  /** BiometricPrompt.ERROR_NEGATIVE_BUTTON: the user pressed the prompt's cancel button. */
  const ErrorNegativeButton: int := 13

  const ErrorPrefix: string := "Error de biometría: "
  const ErrorSuffix: string := ". Intenta de nuevo."

  /** What the status label says; Text gives the words on screen. */
  datatype Status =
    | FromLayout
    | Scanning
    | AuthSucceeded
    | NotRecognized
    | Cancelled
    | BiometricError(errString: string)
    | Invalid(reason: Reason)
    | Loaded
  {
    /** The label's text; the layout's initial text is not part of this model. */
    function Text(): string {
      match this
      case FromLayout => ""
      case Scanning => "Estado: Escaneando huella..."
      case AuthSucceeded => "Estado: Autenticación exitosa"
      case NotRecognized => "Huella no reconocida. Intenta de nuevo."
      case Cancelled => "Autenticación cancelada. Intenta de nuevo."
      case BiometricError(e) => ErrorPrefix + e + ErrorSuffix
      case Invalid(r) => Message(r)
      case Loaded => "Datos cargados correctamente"
    }
  }

  /**
   * What the timer label shows: nothing yet, the running time ("Tiempo: ..."),
   * or the total time ("Tiempo total: ..."), each for an elapsed count of
   * milliseconds; Parts gives the minutes, seconds and milliseconds on screen.
   */
  datatype TimeLabel = Unset | Running(millis: int) | Total(millis: int)
  {
    function Parts(): Elapsed
      requires !Unset?
    {
      Decompose(millis)
    }
  }

  /** One `new Runnable()` of startTimer; only its identity matters. */
  class TimerRunnable {
  }

  class MainActivity {
    var status: Status
    var timeLabel: TimeLabel
    var formVisible: bool
    var progressVisible: bool
    var nombre: string
    var sexo: string
    var edad: string
    var residencia: string
    var nacionalidad: string

    var startTime: int
    var isTimerRunning: bool
    var timerRunnable: TimerRunnable?
    /** The runnables waiting in timerHandler's queue. */
    var queued: set<TimerRunnable>

    /** The form's five fields. */
    function Fields(): Form
      reads this`nombre, this`sexo, this`edad, this`residencia, this`nacionalidad
    {
      Form(nombre, sexo, edad, residencia, nacionalidad)
    }

    /** The runnable removeCallbacks(timerRunnable) removes: none while it is null. */
    function Current(): set<TimerRunnable>
      reads this`timerRunnable
    {
      if timerRunnable == null then {} else {timerRunnable}
    }

    /**
     * The stopwatch invariant: at most one display callback is pending, it is
     * the current runnable, and none is pending once the running flag is cleared.
     */
    ghost predicate Valid()
      reads this
    {
      queued <= Current() && (queued != {} ==> isTimerRunning)
    }

    /** The field initialisers; the layout's initial view contents are not modelled. */
    constructor ()
      ensures Valid()
      ensures status == FromLayout && timeLabel == Unset && !formVisible && !progressVisible
      ensures Fields() == Form("", "", "", "", "")
      ensures startTime == 0 && !isTimerRunning && timerRunnable == null && queued == {}
    {
      status, timeLabel, formVisible, progressVisible := FromLayout, Unset, false, false;
      nombre, sexo, edad, residencia, nacionalidad := "", "", "", "", "";
      startTime, isTimerRunning, timerRunnable, queued := 0, false, null, {};
    }

    /**
     * scanFingerprint: hide the form, show progress, start the stopwatch with
     * startTimer as written. The invariant holds afterwards exactly when no
     * runnable was queued before.
     */
    method ScanFingerprint(now: int)
      modifies this`status, this`formVisible, this`progressVisible
      modifies this`startTime, this`isTimerRunning, this`timerRunnable, this`queued
      ensures status == Scanning && !formVisible && progressVisible
      ensures startTime == now && isTimerRunning
      ensures timerRunnable != null && fresh(timerRunnable) && queued == old(queued) + {timerRunnable}
      ensures Valid() <==> old(queued) == {}
    {
      status := Scanning;
      formVisible := false;
      progressVisible := true;
      StartTimerAsWritten(now);
    }

    /** scanFingerprint with the corrected startTimer: exactly one runnable is queued afterwards. */
    method ScanFingerprintCorrected(now: int)
      requires Valid()
      modifies this`status, this`formVisible, this`progressVisible
      modifies this`startTime, this`isTimerRunning, this`timerRunnable, this`queued
      ensures Valid()
      ensures status == Scanning && !formVisible && progressVisible
      ensures startTime == now && isTimerRunning
      ensures timerRunnable != null && fresh(timerRunnable) && queued == {timerRunnable}
    {
      status := Scanning;
      formVisible := false;
      progressVisible := true;
      StartTimer(now);
    }

    /**
     * startTimer as the source writes it: a new runnable is posted, and one an
     * earlier start posted stays in the queue.
     */
    method StartTimerAsWritten(now: int)
      modifies this`startTime, this`isTimerRunning, this`timerRunnable, this`queued
      ensures startTime == now && isTimerRunning
      ensures timerRunnable != null && fresh(timerRunnable)
      ensures queued == old(queued) + {timerRunnable}
    {
      startTime := now;
      isTimerRunning := true;
      var r := new TimerRunnable;
      timerRunnable := r;
      queued := queued + {r};
    }

    /**
     * startTimer with the previous runnable removed before it is replaced, so that
     * exactly one display callback is pending afterwards.
     */
    method StartTimer(now: int)
      requires Valid()
      modifies this`startTime, this`isTimerRunning, this`timerRunnable, this`queued
      ensures Valid()
      ensures startTime == now && isTimerRunning
      ensures timerRunnable != null && fresh(timerRunnable) && queued == {timerRunnable}
    {
      queued := queued - Current();
      startTime := now;
      isTimerRunning := true;
      var r := new TimerRunnable;
      timerRunnable := r;
      queued := queued + {r};
    }

    /**
     * The handler runs runnable r at clock reading now: the label shows the running
     * time since startTime, and r posts itself again only while the flag is set.
     */
    method RunTimerCallback(r: TimerRunnable, now: int)
      requires r in queued
      modifies this`timeLabel, this`queued
      ensures timeLabel == Running(now - startTime)
      ensures queued == if isTimerRunning then old(queued) else old(queued) - {r}
      ensures old(Valid()) ==> Valid()
    {
      queued := queued - {r};
      timeLabel := Running(now - startTime);
      if isTimerRunning {
        queued := queued + {r};
      }
    }

    /** stopTimer: clear the flag and remove the current runnable from the queue. */
    method StopTimer()
      modifies this`isTimerRunning, this`queued
      ensures !isTimerRunning
      ensures queued == old(queued) - Current()
      ensures old(Valid()) ==> Valid() && queued == {}
    {
      isTimerRunning := false;
      queued := queued - Current();
    }

    /** onAuthenticationSucceeded: stop the stopwatch, hide progress, fill the form. */
    method OnAuthenticationSucceeded(now: int, r: real)
      requires 0.0 <= r < 1.0
      modifies this`status, this`timeLabel, this`formVisible, this`progressVisible
      modifies this`nombre, this`sexo, this`edad, this`residencia, this`nacionalidad
      modifies this`isTimerRunning, this`queued
      ensures !isTimerRunning && queued == old(queued) - Current()
      ensures old(Valid()) ==> Valid() && queued == {}
      ensures !progressVisible && formVisible
      ensures Fields() == Row(PickIndex(r))
      ensures timeLabel == Total(now - startTime)
      ensures status == Loaded
    {
      StopTimer();
      progressVisible := false;
      status := AuthSucceeded;
      SimulateUserData(now, r);
    }

    /** onAuthenticationFailed: hide progress, say the print was not recognised, stop. */
    method OnAuthenticationFailed()
      modifies this`status, this`progressVisible, this`isTimerRunning, this`queued
      ensures status == NotRecognized && !progressVisible
      ensures !isTimerRunning && queued == old(queued) - Current()
      ensures old(Valid()) ==> Valid() && queued == {}
    {
      progressVisible := false;
      status := NotRecognized;
      StopTimer();
    }

    /** onAuthenticationError: stop, hide progress, and tell a cancel from other errors. */
    method OnAuthenticationError(errorCode: int, errString: string)
      modifies this`status, this`progressVisible, this`isTimerRunning, this`queued
      ensures status == if errorCode == ErrorNegativeButton then Cancelled else BiometricError(errString)
      ensures !progressVisible
      ensures !isTimerRunning && queued == old(queued) - Current()
      ensures old(Valid()) ==> Valid() && queued == {}
    {
      StopTimer();
      progressVisible := false;
      if errorCode == ErrorNegativeButton {
        status := Cancelled;
      } else {
        status := BiometricError(errString);
      }
    }

    /**
     * simulateUserData: write all five fields from row PickIndex(r), show the form,
     * show the total time, and report success when the form validates, which
     * every row of the table does.
     */
    method SimulateUserData(now: int, r: real)
      requires 0.0 <= r < 1.0
      modifies this`nombre, this`sexo, this`edad, this`residencia, this`nacionalidad
      modifies this`formVisible, this`timeLabel, this`status
      ensures Fields() == Row(PickIndex(r))
      ensures formVisible
      ensures timeLabel == Total(now - startTime)
      ensures status == Loaded
    {
      var idx := PickIndex(r);
      nombre := Nombres[idx];
      sexo := Sexos[idx];
      edad := Edades[idx];
      residencia := Residencias[idx];
      nacionalidad := Nacionalidades[idx];
      formVisible := true;
      timeLabel := Total(now - startTime);
      var ok := ValidateForm();
      if ok {
        status := Loaded;
      }
    }

    /**
     * validateForm: true exactly when Validate accepts the fields; a refusal puts
     * its message on the status label, and a row of the mock table is always accepted.
     */
    method ValidateForm() returns (ok: bool)
      modifies this`status
      ensures ok <==> Validate(Fields()) == Accepted
      ensures status == if ok then old(status) else Invalid(Validate(Fields()).reason)
      ensures IsRow(Fields()) ==> ok
    {
      if IsRow(Fields()) {
        var idx :| 0 <= idx < RowCount && Fields() == Row(idx);
        EveryRowValidates(idx);
      }
      var v := Validate(Fields());
      ok := v.Accepted?;
      if !ok {
        status := Invalid(v.reason);
      }
    }

    /** onDestroy: remove the current runnable, if there is one, from the queue. */
    method OnDestroy()
      modifies this`queued
      ensures queued == old(queued) - Current()
      ensures old(Valid()) ==> Valid() && queued == {}
    {
      if timerRunnable != null {
        queued := queued - {timerRunnable};
      }
    }
  }

  /** Scan, then a successful authentication: one row of the table, shown and accepted. */
  method ScanThenSucceed(a: MainActivity, t0: int, t1: int, r: real)
    requires a.queued == {} && 0.0 <= r < 1.0
    modifies a
    ensures a.Valid() && !a.isTimerRunning && a.queued == {}
    ensures a.formVisible && !a.progressVisible && a.status == Loaded
    ensures exists idx :: 0 <= idx < RowCount && a.Fields() == Row(idx)
    ensures a.timeLabel == Total(t1 - t0)
  {
    a.ScanFingerprint(t0);
    a.OnAuthenticationSucceeded(t1, r);
  }

  /** Scan, then an unrecognised print: the form stays hidden and the stopwatch is stopped. */
  method ScanThenFail(a: MainActivity, t0: int)
    requires a.queued == {}
    modifies a
    ensures a.Valid() && !a.isTimerRunning && a.queued == {}
    ensures !a.formVisible && !a.progressVisible && a.status == NotRecognized
  {
    a.ScanFingerprint(t0);
    a.OnAuthenticationFailed();
  }

  /** Scan, then the prompt's cancel button: the form stays hidden. */
  method ScanThenCancel(a: MainActivity, t0: int)
    requires a.queued == {}
    modifies a
    ensures a.Valid() && !a.isTimerRunning && a.queued == {}
    ensures !a.formVisible && !a.progressVisible && a.status == Cancelled
  {
    a.ScanFingerprint(t0);
    a.OnAuthenticationError(ErrorNegativeButton, "Cancelar");
  }

  /** Stopping twice leaves the state that stopping once leaves. */
  method StopTimerTwice(a: MainActivity)
    modifies a`isTimerRunning, a`queued
    ensures !a.isTimerRunning && a.queued == old(a.queued) - old(a.Current())
  {
    a.StopTimer();
    a.StopTimer();
  }

  /**
   * Two presses of the scan button before a result, with startTimer as
   * written: after the successful result one runnable is still queued with the
   * flag cleared, and when it runs it replaces the total time with a running time.
   */
  method RestartLeavesStaleCallback() returns (pending: nat, shown: TimeLabel)
    ensures pending == 1 && shown.Running?
  {
    var a := new MainActivity();
    a.ScanFingerprint(0);
    var first := a.timerRunnable;
    a.ScanFingerprint(100);
    a.OnAuthenticationSucceeded(900, 0.5);
    assert first in a.queued;
    pending := |a.queued|;
    a.RunTimerCallback(first, 930);
    shown := a.timeLabel;
  }

  /** The same two presses with the corrected timer start: nothing stays queued and
      the total time stays on the label. */
  method RestartWithCorrectedTimer() returns (pending: nat, shown: TimeLabel)
    ensures pending == 0 && shown == Total(800)
  {
    var a := new MainActivity();
    a.ScanFingerprintCorrected(0);
    a.ScanFingerprintCorrected(100);
    a.OnAuthenticationSucceeded(900, 0.5);
    pending := |a.queued|;
    shown := a.timeLabel;
  }
}
