/** The exam integrity monitor (`useSecureExam`): it turns browser signals into
    violations, keeps them in an append-only log beside a screenshot counter, and asks
    the incident store to record every violation but a fullscreen exit. */
module SecureExam {
  import opened Base
  import opened Text

  datatype ViolationType = Copy | Paste | Screenshot | TabSwitch | FullscreenExit

  datatype Violation = Violation(kind: ViolationType, timestamp: int)

  /** An `exam_incidents` row the monitor asks the store to insert. */
  datatype IncidentRequest = IncidentRequest(examId: string, admissionId: string, kind: ViolationType, createdAt: int)
  {
    /** The `reason` column of the row. */
    function Reason(): string
    {
      IncidentReason(kind)
    }
  }

  /** A keyboard event: `key` and `code` are "" when the browser leaves them undefined. */
  datatype KeyInfo = KeyInfo(key: string, code: string, altKey: bool, ctrlKey: bool, metaKey: bool, shiftKey: bool)

  /** What `navigator.clipboard.read()` gives: no such API, a rejection (permission,
      insecure context), or the MIME types of each clipboard item. */
  datatype ClipboardRead = NoReadApi | ReadFailed | Items(types: seq<seq<string>>)

  datatype BrowserEvent =
    | CopyEvent
    | PasteEvent
    | KeyDown(k: KeyInfo)
    | KeyUp(k: KeyInfo)
    | VisibilityChange(hidden: bool)
    | WindowBlur
    | FullscreenChange(fullscreenElement: bool)

  /** The seven listeners the hook attaches. */
  datatype Listener = OnCopy | OnPaste | OnKeyDown | OnKeyUp | OnVisibility | OnBlur | OnFullscreen

  const AllListeners: set<Listener> := {OnCopy, OnPaste, OnKeyDown, OnKeyUp, OnVisibility, OnBlur, OnFullscreen}

  function ListenerFor(e: BrowserEvent): Listener
  {
    match e
    case CopyEvent => OnCopy
    case PasteEvent => OnPaste
    case KeyDown(_) => OnKeyDown
    case KeyUp(_) => OnKeyUp
    case VisibilityChange(_) => OnVisibility
    case WindowBlur => OnBlur
    case FullscreenChange(_) => OnFullscreen
  }

  function TypeName(t: ViolationType): string
  {
    match t
    case Copy => "copy"
    case Paste => "paste"
    case Screenshot => "screenshot"
    case TabSwitch => "tab-switch"
    case FullscreenExit => "exit-fullscreen"
  }

  /** The reason written with each incident. */
  function IncidentReason(t: ViolationType): string
  {
    TypeName(t) + " detected"
  }

  /** PrintScreen as the key or the code, compared case-insensitively. */
  predicate IsPrintScreen(k: KeyInfo)
  {
    Lower(k.key) == "printscreen" || Lower(k.code) == "printscrn" || Lower(k.code) == "printscreen"
  }

  /** First keydown rule: PrintScreen, or Alt with a code mentioning "print". */
  predicate PrintKeyRule(k: KeyInfo)
  {
    IsPrintScreen(k) || (k.altKey && (Lower(k.key) == "printscreen" || Contains(Lower(k.code), "print")))
  }

  /** Second keydown rule: Ctrl/Meta + Shift + S (snipping shortcut). */
  predicate SnipRule(k: KeyInfo)
  {
    (k.metaKey || k.ctrlKey) && k.shiftKey && Lower(k.key) == "s"
  }

  /** Third keydown rule: Meta + Shift + 3, 4 or 5 (macOS capture); the key is not lower-cased. */
  predicate MacCaptureRule(k: KeyInfo)
  {
    k.metaKey && k.shiftKey && (k.key == "3" || k.key == "4" || k.key == "5")
  }

  /** Ctrl/Meta + F or U: the default action is blocked, nothing is logged. */
  predicate BlockedShortcut(k: KeyInfo)
  {
    (k.ctrlKey || k.metaKey) && (k.key == "f" || k.key == "u")
  }

  /** How many of the three keydown rules fire: each one logs its own screenshot. */
  function KeyDownHits(k: KeyInfo): (n: nat)
    ensures n <= 3
    ensures n > 0 <==> PrintKeyRule(k) || SnipRule(k) || MacCaptureRule(k)
  {
    (if PrintKeyRule(k) then 1 else 0) + (if SnipRule(k) then 1 else 0) + (if MacCaptureRule(k) then 1 else 0)
  }

  predicate IsImageType(t: string)
  {
    StartsWith(t, "image/")
  }

  /** Some clipboard item offers an `image/...` type; a missing API or a failed read is no evidence. */
  predicate ClipboardHasImage(r: ClipboardRead)
  {
    r.Items? && exists i, j | 0 <= i < |r.types| && 0 <= j < |r.types[i]| :: IsImageType(r.types[i][j])
  }

  /** A detection of type `t` followed by its best-effort clipboard check. */
  function Detection(fires: bool, t: ViolationType, image: bool): seq<ViolationType>
  {
    if !fires then [] else [t] + ClipboardCheck(image)
  }

  /** What one `tryReadClipboardImage` call adds. */
  function ClipboardCheck(image: bool): seq<ViolationType>
  {
    if image then [Screenshot] else []
  }

  /** The violation types one event adds, in order, while the listeners are attached. */
  function EventKinds(e: BrowserEvent, image: bool): seq<ViolationType>
  {
    match e
    case CopyEvent => [Copy]
    case PasteEvent => [Paste]
    case KeyDown(k) =>
      Detection(PrintKeyRule(k), Screenshot, image) + Detection(SnipRule(k), Screenshot, image)
      + Detection(MacCaptureRule(k), Screenshot, image)
    case KeyUp(k) => Detection(IsPrintScreen(k), Screenshot, image)
    case VisibilityChange(hidden) => Detection(hidden, TabSwitch, image)
    case WindowBlur => ClipboardCheck(image)
    case FullscreenChange(fs) => if fs then [] else [FullscreenExit]
  }

  /** The three detections a keydown runs, in order. */
  lemma KeyDownParts(k: KeyInfo, image: bool) returns (d1: seq<ViolationType>, d2: seq<ViolationType>, d3: seq<ViolationType>)
    ensures d1 == Detection(PrintKeyRule(k), Screenshot, image)
    ensures d2 == Detection(SnipRule(k), Screenshot, image)
    ensures d3 == Detection(MacCaptureRule(k), Screenshot, image)
    ensures EventKinds(KeyDown(k), image) == d1 + d2 + d3
  {
    d1, d2, d3 := Detection(PrintKeyRule(k), Screenshot, image), Detection(SnipRule(k), Screenshot, image),
                  Detection(MacCaptureRule(k), Screenshot, image);
  }

  /** Copy, paste and the blocked shortcuts suppress the browser's default action. */
  predicate PreventsDefault(e: BrowserEvent)
  {
    e.CopyEvent? || e.PasteEvent? || (e.KeyDown? && BlockedShortcut(e.k))
  }

  /** Number of entries of one type. */
  function CountOf(vs: seq<Violation>, t: ViolationType): nat
  {
    if vs == [] then 0 else CountOf(vs[..|vs| - 1], t) + (if vs[|vs| - 1].kind == t then 1 else 0)
  }

  function CountKind(ks: seq<ViolationType>, t: ViolationType): nat
  {
    if ks == [] then 0 else CountKind(ks[..|ks| - 1], t) + (if ks[|ks| - 1] == t then 1 else 0)
  }

  /** The log `vs` after one entry per type of `ks` has been appended, all at time `now`. */
  function Logged(vs: seq<Violation>, ks: seq<ViolationType>, now: int): seq<Violation>
  {
    if ks == [] then vs else Logged(vs, ks[..|ks| - 1], now) + [Violation(ks[|ks| - 1], now)]
  }

  /** The incident insert one logged type causes: none for a fullscreen exit, none
      without an exam id or a stored admission id. */
  function IncidentFor(t: ViolationType, examId: string, storedId: string, now: int): seq<IncidentRequest>
  {
    if t != FullscreenExit && examId != "" && Trim(storedId) != "" then
      [IncidentRequest(examId, Trim(storedId), t, now)]
    else []
  }

  /** The inserts sent so far, `rs`, after the types of `ks` have been logged. */
  function Sent(rs: seq<IncidentRequest>, ks: seq<ViolationType>, examId: string, storedId: string, now: int): seq<IncidentRequest>
  {
    if ks == [] then rs else Sent(rs, ks[..|ks| - 1], examId, storedId, now) + IncidentFor(ks[|ks| - 1], examId, storedId, now)
  }

  lemma LogOne(vs: seq<Violation>, rs: seq<IncidentRequest>, t: ViolationType, examId: string, storedId: string, now: int)
    ensures Logged(vs, [t], now) == vs + [Violation(t, now)]
    ensures Sent(rs, [t], examId, storedId, now) == rs + IncidentFor(t, examId, storedId, now)
  {
    assert [t][..0] == [];
  }

  /** Logging `a` and then `b` is logging `a + b`. */
  lemma {:induction false} LoggedAppend(vs: seq<Violation>, rs: seq<IncidentRequest>, a: seq<ViolationType>, b: seq<ViolationType>,
                                        examId: string, storedId: string, now: int)
    ensures Logged(vs, a + b, now) == Logged(Logged(vs, a, now), b, now)
    ensures Sent(rs, a + b, examId, storedId, now) == Sent(Sent(rs, a, examId, storedId, now), b, examId, storedId, now)
    decreases |b|
  {
    if b == [] {
      assert a + b == a;
    } else {
      var b' := b[..|b| - 1];
      assert (a + b)[..|a + b| - 1] == a + b';
      assert (a + b)[|a + b| - 1] == b[|b| - 1];
      LoggedAppend(vs, rs, a, b', examId, storedId, now);
    }
  }

  lemma CountOfSnoc(vs: seq<Violation>, v: Violation, t: ViolationType)
    ensures CountOf(vs + [v], t) == CountOf(vs, t) + (if v.kind == t then 1 else 0)
  {
    assert (vs + [v])[..|vs|] == vs;
  }

  /** Counting the entries of one type after logging `ks`: the types in `ks` are added. */
  lemma {:induction false} CountOfLogged(vs: seq<Violation>, ks: seq<ViolationType>, now: int, t: ViolationType)
    ensures CountOf(Logged(vs, ks, now), t) == CountOf(vs, t) + CountKind(ks, t)
    decreases |ks|
  {
    if ks != [] {
      var ks' := ks[..|ks| - 1];
      CountOfSnoc(Logged(vs, ks', now), Violation(ks[|ks| - 1], now), t);
      CountOfLogged(vs, ks', now, t);
    }
  }

  lemma {:induction false} CountKindAppend(a: seq<ViolationType>, b: seq<ViolationType>, t: ViolationType)
    ensures CountKind(a + b, t) == CountKind(a, t) + CountKind(b, t)
    decreases |b|
  {
    if b != [] {
      assert (a + b)[..|a + b| - 1] == a + b[..|b| - 1];
      CountKindAppend(a, b[..|b| - 1], t);
    } else {
      assert a + b == a;
    }
  }

  /** A keydown logs two screenshots per rule that fires when the clipboard holds an
      image, one otherwise; it never logs anything else. */
  lemma KeyDownScreenshots(k: KeyInfo, image: bool)
    ensures CountKind(EventKinds(KeyDown(k), image), Screenshot) == KeyDownHits(k) * (if image then 2 else 1)
    ensures |EventKinds(KeyDown(k), image)| == KeyDownHits(k) * (if image then 2 else 1)
  {
    var d1, d2, d3 := Detection(PrintKeyRule(k), Screenshot, image), Detection(SnipRule(k), Screenshot, image),
                      Detection(MacCaptureRule(k), Screenshot, image);
    CountKindAppend(d1 + d2, d3, Screenshot);
    CountKindAppend(d1, d2, Screenshot);
    assert CountKind([Screenshot], Screenshot) == 1;
    assert CountKind([Screenshot, Screenshot], Screenshot) == 2 by {
      assert [Screenshot, Screenshot][..1] == [Screenshot];
    }
    assert [Screenshot] + [Screenshot] == [Screenshot, Screenshot];
  }

  /** Ctrl/Meta+F and +U are only blocked: without a PrintScreen code they log nothing. */
  lemma BlockedShortcutNotLogged(k: KeyInfo, image: bool)
    requires BlockedShortcut(k) && !k.shiftKey
    requires !Contains(Lower(k.code), "print")
    ensures EventKinds(KeyDown(k), image) == []
    ensures PreventsDefault(KeyDown(k))
  {
    LowerFacts(k.key);
    if Lower(k.code) == "printscrn" || Lower(k.code) == "printscreen" {
      assert SliceAt(Lower(k.code), "print", 0);
    }
  }

  /** Pressing a PrintScreen key once fires keydown and keyup: at least two screenshot
      entries, even with nothing on the clipboard. */
  lemma PrintScreenPressCountsTwice(k: KeyInfo, image: bool)
    requires IsPrintScreen(k)
    ensures CountKind(EventKinds(KeyDown(k), image) + EventKinds(KeyUp(k), image), Screenshot) >= 2
  {
    KeyDownScreenshots(k, image);
    CountKindAppend(EventKinds(KeyDown(k), image), EventKinds(KeyUp(k), image), Screenshot);
    assert CountKind(EventKinds(KeyUp(k), image), Screenshot) >= 1 by {
      assert EventKinds(KeyUp(k), image) == [Screenshot] + ClipboardCheck(image);
      CountKindAppend([Screenshot], ClipboardCheck(image), Screenshot);
      assert CountKind([Screenshot], Screenshot) == 1;
    }
  }

  /** Losing focus alone logs nothing; only a clipboard image turns it into a screenshot. */
  lemma BlurLogsOnlyOnImage(r: ClipboardRead, i: nat, j: nat)
    ensures r.Items? && i < |r.types| && j < |r.types[i]| && IsImageType(r.types[i][j]) ==>
      EventKinds(WindowBlur, ClipboardHasImage(r)) == [Screenshot]
    ensures r.Items? && (forall m, n | 0 <= m < |r.types| && 0 <= n < |r.types[m]| :: !IsImageType(r.types[m][n])) ==>
      EventKinds(WindowBlur, ClipboardHasImage(r)) == []
    ensures !r.Items? ==> EventKinds(WindowBlur, ClipboardHasImage(r)) == []
  {
  }

  /** The reason text names the type: different types give different reasons. */
  lemma ReasonIdentifiesKind(t: ViolationType, u: ViolationType)
    ensures IncidentReason(t) == IncidentReason(u) <==> t == u
  {
    if t != u {
      assert TypeName(t) != TypeName(u);
      assert IncidentReason(t)[..|TypeName(t)|] == TypeName(t);
      assert IncidentReason(u)[..|TypeName(u)|] == TypeName(u);
      if |TypeName(t)| == |TypeName(u)| {
        assert IncidentReason(t)[..|TypeName(t)|] != IncidentReason(u)[..|TypeName(u)|];
      }
    }
  }

  /** A fullscreen exit is kept locally but never sent to the incident store: logging
      keeps the earlier requests, adds at most one per other type, and none of the
      added ones is a fullscreen exit. */
  lemma {:induction false} FullscreenExitNeverSent(rs: seq<IncidentRequest>, ks: seq<ViolationType>,
                                                   examId: string, storedId: string, now: int)
    ensures var sent := Sent(rs, ks, examId, storedId, now);
      && |rs| <= |sent| <= |rs| + |ks| - CountKind(ks, FullscreenExit)
      && sent[..|rs|] == rs
      && forall i :: |rs| <= i < |sent| ==> sent[i].kind != FullscreenExit
    decreases |ks|
  {
    if ks != [] {
      FullscreenExitNeverSent(rs, ks[..|ks| - 1], examId, storedId, now);
      var before := Sent(rs, ks[..|ks| - 1], examId, storedId, now);
      assert (before + IncidentFor(ks[|ks| - 1], examId, storedId, now))[..|before|] == before;
    }
  }

  class Monitor {
    /** The violations logged so far, oldest first. */
    var violations: seq<Violation>
    var screenshotCount: nat
    /** The hook's `isActive` argument: the exam has started. */
    var active: bool
    /** The listeners currently attached to the document and window. */
    var listeners: set<Listener>
    var isFullscreen: bool
    /** The `examFullscreen` entry of local storage. */
    var fullscreenStored: bool
    /** Every insert sent to `exam_incidents`, in order; write failures are ignored. */
    var incidents: seq<IncidentRequest>
    /** The exam id the logging callback captured when the hook was first rendered. */
    const examId: string

    ghost predicate Valid()
      reads this
    {
      && screenshotCount == CountOf(violations, Screenshot)
      && listeners == (if active then AllListeners else {})
    }

    constructor (examId: string, fullscreenElement: bool)
      ensures Valid()
      ensures this.examId == examId && violations == [] && incidents == []
      ensures !active && listeners == {} && isFullscreen == fullscreenElement && !fullscreenStored
    {
      this.examId := examId;
      violations := [];
      screenshotCount := 0;
      active := false;
      listeners := {};
      isFullscreen := fullscreenElement;
      fullscreenStored := false;
      incidents := [];
    }

    /** The effect on `isActive`: its cleanup detaches all seven listeners, and it
        attaches all seven again only when the new value is true. */
    method SetActive(a: bool)
      requires Valid()
      modifies this
      ensures Valid()
      ensures active == a
      ensures listeners == (if a then AllListeners else {})
      ensures violations == old(violations) && screenshotCount == old(screenshotCount)
      ensures incidents == old(incidents) && isFullscreen == old(isFullscreen)
      ensures fullscreenStored == old(fullscreenStored)
    {
      listeners := listeners - AllListeners;
      active := a;
      if a {
        listeners := listeners + AllListeners;
      }
    }

    /** `logViolation`: append one entry, count screenshots, request an incident. */
    method LogViolation(t: ViolationType, now: int, storedId: string)
      requires Valid()
      modifies this
      ensures Valid()
      ensures violations == old(violations) + [Violation(t, now)]
      ensures incidents == old(incidents) + IncidentFor(t, examId, storedId, now)
      ensures active == old(active) && listeners == old(listeners)
      ensures isFullscreen == old(isFullscreen) && fullscreenStored == old(fullscreenStored)
    {
      CountOfSnoc(violations, Violation(t, now), Screenshot);
      violations := violations + [Violation(t, now)];
      if t == Screenshot {
        screenshotCount := screenshotCount + 1;
      }
      if t != FullscreenExit {
        var admissionId := Trim(storedId);
        if examId != "" && admissionId != "" {
          incidents := incidents + [IncidentRequest(examId, admissionId, t, now)];
        }
      }
    }

    /** `tryReadClipboardImage`: scan every item's types; log one screenshot at the first
        `image/` type. A missing API or a failed read returns false and logs nothing. */
    method TryReadClipboardImage(r: ClipboardRead, now: int, storedId: string) returns (found: bool)
      requires Valid()
      modifies this
      ensures Valid()
      ensures found == ClipboardHasImage(r)
      ensures violations == Logged(old(violations), ClipboardCheck(found), now)
      ensures incidents == Sent(old(incidents), ClipboardCheck(found), examId, storedId, now)
      ensures active == old(active) && listeners == old(listeners)
      ensures isFullscreen == old(isFullscreen) && fullscreenStored == old(fullscreenStored)
    {
      if !r.Items? {
        return false;
      }
      var items := r.types;
      var i := 0;
      while i < |items|
        invariant 0 <= i <= |items|
        invariant forall a, b | 0 <= a < i && 0 <= b < |items[a]| :: !IsImageType(items[a][b])
        invariant violations == old(violations) && incidents == old(incidents)
        invariant active == old(active) && listeners == old(listeners)
        invariant isFullscreen == old(isFullscreen) && fullscreenStored == old(fullscreenStored)
        invariant Valid()
      {
        var j := 0;
        while j < |items[i]|
          invariant 0 <= j <= |items[i]|
          invariant forall b | 0 <= b < j :: !IsImageType(items[i][b])
          invariant violations == old(violations) && incidents == old(incidents)
          invariant active == old(active) && listeners == old(listeners)
          invariant isFullscreen == old(isFullscreen) && fullscreenStored == old(fullscreenStored)
          invariant Valid()
        {
          if IsImageType(items[i][j]) {
            LogOne(violations, incidents, Screenshot, examId, storedId, now);
            LogViolation(Screenshot, now, storedId);
            return true;
          }
          j := j + 1;
        }
        i := i + 1;
      }
      return false;
    }

    /** Deliver one browser event: it reaches its handler only while that listener is
        attached. `clipboard` is what every clipboard check of this event reads. The
        result says whether the default action was suppressed and whether a fullscreen
        re-entry was scheduled. */
    method Dispatch(e: BrowserEvent, clipboard: ClipboardRead, now: int, storedId: string)
      returns (prevented: bool, reentryScheduled: bool)
      requires Valid()
      modifies this
      ensures Valid()
      ensures active == old(active) && listeners == old(listeners)
      ensures fullscreenStored == old(fullscreenStored)
      ensures ListenerFor(e) !in old(listeners) ==>
        violations == old(violations) && incidents == old(incidents) && isFullscreen == old(isFullscreen)
        && !prevented && !reentryScheduled
      ensures ListenerFor(e) in old(listeners) ==>
        && violations == Logged(old(violations), EventKinds(e, ClipboardHasImage(clipboard)), now)
        && incidents == Sent(old(incidents), EventKinds(e, ClipboardHasImage(clipboard)), examId, storedId, now)
        && prevented == PreventsDefault(e)
        && isFullscreen == (if e.FullscreenChange? then e.fullscreenElement else old(isFullscreen))
        && reentryScheduled == (e.FullscreenChange? && !e.fullscreenElement)
    {
      prevented, reentryScheduled := false, false;
      if ListenerFor(e) !in listeners {
        return;
      }
      match e
      case CopyEvent =>
        prevented := true;
        HandleLog(Copy, now, storedId);
      case PasteEvent =>
        prevented := true;
        HandleLog(Paste, now, storedId);
      case KeyDown(k) =>
        prevented := HandleKeyDown(k, clipboard, now, storedId);
      case KeyUp(k) =>
        HandleDetect(IsPrintScreen(k), Screenshot, clipboard, now, storedId);
      case VisibilityChange(hidden) =>
        HandleDetect(hidden, TabSwitch, clipboard, now, storedId);
      case WindowBlur =>
        var _ := TryReadClipboardImage(clipboard, now, storedId);
      case FullscreenChange(fs) =>
        isFullscreen := fs;
        if !fs {
          HandleLog(FullscreenExit, now, storedId);
          reentryScheduled := true;
        }
    }

    /** The copy, paste and fullscreen-exit handlers: one entry of type `t`. */
    method HandleLog(t: ViolationType, now: int, storedId: string)
      requires Valid()
      modifies this
      ensures Valid()
      ensures violations == Logged(old(violations), [t], now)
      ensures incidents == Sent(old(incidents), [t], examId, storedId, now)
      ensures active == old(active) && listeners == old(listeners)
      ensures isFullscreen == old(isFullscreen) && fullscreenStored == old(fullscreenStored)
    {
      LogOne(violations, incidents, t, examId, storedId, now);
      LogViolation(t, now, storedId);
    }

    /** `handleKeyDown`: the three screenshot rules, in order, each followed by its
        clipboard check. */
    method HandleKeyDown(k: KeyInfo, clipboard: ClipboardRead, now: int, storedId: string) returns (prevented: bool)
      requires Valid()
      modifies this
      ensures Valid()
      ensures violations == Logged(old(violations), EventKinds(KeyDown(k), ClipboardHasImage(clipboard)), now)
      ensures incidents == Sent(old(incidents), EventKinds(KeyDown(k), ClipboardHasImage(clipboard)), examId, storedId, now)
      ensures prevented == BlockedShortcut(k)
      ensures active == old(active) && listeners == old(listeners)
      ensures isFullscreen == old(isFullscreen) && fullscreenStored == old(fullscreenStored)
    {
      ghost var v0, i0 := violations, incidents;
      ghost var d1, d2, d3 := KeyDownParts(k, ClipboardHasImage(clipboard));
      HandleDetect(PrintKeyRule(k), Screenshot, clipboard, now, storedId);
      HandleDetect(SnipRule(k), Screenshot, clipboard, now, storedId);
      LoggedAppend(v0, i0, d1, d2, examId, storedId, now);
      HandleDetect(MacCaptureRule(k), Screenshot, clipboard, now, storedId);
      LoggedAppend(v0, i0, d1 + d2, d3, examId, storedId, now);
      prevented := BlockedShortcut(k);
    }

    /** `handleKeyUp` and `handleVisibilityChange`, and each keydown rule: when the rule
        fires, log `t` and check the clipboard. */
    method HandleDetect(fires: bool, t: ViolationType, clipboard: ClipboardRead, now: int, storedId: string)
      requires Valid()
      modifies this
      ensures Valid()
      ensures violations == Logged(old(violations), Detection(fires, t, ClipboardHasImage(clipboard)), now)
      ensures incidents == Sent(old(incidents), Detection(fires, t, ClipboardHasImage(clipboard)), examId, storedId, now)
      ensures active == old(active) && listeners == old(listeners)
      ensures isFullscreen == old(isFullscreen) && fullscreenStored == old(fullscreenStored)
    {
      if fires {
        ghost var v0, i0 := violations, incidents;
        HandleLog(t, now, storedId);
        var found := TryReadClipboardImage(clipboard, now, storedId);
        LoggedAppend(v0, i0, [t], ClipboardCheck(found), examId, storedId, now);
      }
    }

    /** `enterFullscreen`: request fullscreen unless already there; on success mark the
        state and store the flag; a rejected request changes nothing. */
    method EnterFullscreen(fullscreenElement: bool, requestOk: bool) returns (ok: bool)
      requires Valid()
      modifies this
      ensures Valid()
      ensures ok == (fullscreenElement || requestOk)
      ensures isFullscreen == (if ok then true else old(isFullscreen))
      ensures fullscreenStored == (if ok then true else old(fullscreenStored))
      ensures violations == old(violations) && incidents == old(incidents)
      ensures active == old(active) && listeners == old(listeners)
    {
      ok := fullscreenElement || requestOk;
      if ok {
        isFullscreen := true;
        fullscreenStored := true;
      }
    }

    /** `exitFullscreen`: leave fullscreen if in it; on success clear the state and the flag. */
    method ExitFullscreen(fullscreenElement: bool, exitOk: bool) returns (ok: bool)
      requires Valid()
      modifies this
      ensures Valid()
      ensures ok == (!fullscreenElement || exitOk)
      ensures isFullscreen == (if ok then false else old(isFullscreen))
      ensures fullscreenStored == (if ok then false else old(fullscreenStored))
      ensures violations == old(violations) && incidents == old(incidents)
      ensures active == old(active) && listeners == old(listeners)
    {
      ok := !fullscreenElement || exitOk;
      if ok {
        isFullscreen := false;
        fullscreenStored := false;
      }
    }
  }

  /** A client run: while inactive a copy is ignored; once active it is logged, and
      after deactivation a tab switch is ignored again. */
  method MonitorScenario()
  {
    var m := new Monitor("elyonaris", false);
    var p, r := m.Dispatch(CopyEvent, NoReadApi, 1, "7123456");
    assert m.violations == [] && !p;
    m.SetActive(true);
    p, r := m.Dispatch(CopyEvent, NoReadApi, 2, "7123456");
    assert m.violations == [Violation(Copy, 2)] && p;
    m.SetActive(false);
    p, r := m.Dispatch(VisibilityChange(true), NoReadApi, 3, "7123456");
    assert m.violations == [Violation(Copy, 2)];
  }
}
