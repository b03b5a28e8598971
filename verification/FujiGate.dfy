/**
 The GFX image-import gate: a bit mask of the steps a client has gone through since the
 last connection reset guards the enumeration operations (`src/fuji/fuji.c`).
 */
module FujiGate {
  import opened Bytes
  import opened Replies
  import opened ObjectStore

  const CLIENT_STATE: bv16 := 0x0001
  const DF28_GET: bv16 := 0x0002
  const DF28_SET: bv16 := 0x0004
  const D226_SET: bv16 := 0x0008
  const D227_SET: bv16 := 0x0010
  const D244_GET: bv16 := 0x0020
  const CURRENT_INFO: bv16 := 0x0040
  const CURRENT_THUMB: bv16 := 0x0080
  const FOLDERS: bv16 := 0x0100
  const DATES: bv16 := 0x0200
  const BOOTSTRAP_READY: bv16 := 0x003f
  const ENUM_READY: bv16 := 0x03ff

  /** The four steps past the bootstrap. */
  const LATER: bv16 := 0x03c0

  const CURRENT_OBJECT: u32 := 0x1000_0001

  /** image_import_steps and image_import_current_handle. */
  datatype Gate = Gate(steps: bv16, current: u32)

  const CLOSED := Gate(0, 0)

  predicate Covers(have: bv16, steps: bv16)
  {
    have & steps == steps
  }

  predicate Apart(a: bv16, b: bv16)
  {
    a & b == 0
  }

  function Join(a: bv16, b: bv16): bv16
  {
    a | b
  }

  predicate Has(g: Gate, steps: bv16)
  {
    Covers(g.steps, steps)
  }

  function Mark(g: Gate, step: bv16): (r: Gate)
    ensures r.steps == Join(g.steps, step) && r.current == g.current
  {
    g.(steps := Join(g.steps, step))
  }

  // ---- The store as the import sees it -------------------------------------------------

  predicate Downloadable(d: Dirent)
  {
    d.id != 0 && !d.isDir
  }

  /** Position of the downloadable object with the highest handle, -1 for none. */
  function Newest(l: seq<Dirent>): (i: int)
    ensures -1 <= i < |l|
    ensures i >= 0 ==> Downloadable(l[i])
    ensures i >= 0 ==> forall k :: 0 <= k < |l| && Downloadable(l[k]) ==> l[k].id <= l[i].id
    ensures i < 0 ==> forall k :: 0 <= k < |l| ==> !Downloadable(l[k])
  {
    if l == [] then -1
    else
      var i, n := Newest(l[..|l| - 1]), |l| - 1;
      if Downloadable(l[n]) && (i < 0 || l[n].id > l[i].id) then n else i
  }

  predicate HasDownloadable(l: seq<Dirent>, h: u32)
  {
    exists i :: 0 <= i < |l| && Downloadable(l[i]) && l[i].id == h
  }

  // ---- Requests ------------------------------------------------------------------------

  /** What a client sends; `l` is the object list at that moment. */
  datatype Request =
    | SetProp(code: u32, len: nat, value: u32)
    | GetProp(code: u32)
    | ObjectInfo(session: bool, params: seq<u32>, l: seq<Dirent>)
    | Thumb(session: bool, params: seq<u32>, l: seq<Dirent>)
    | ImportFolders(session: bool, params: seq<u32>)
    | ImportDates(session: bool, params: seq<u32>)
    | PartialObject(session: bool, params: seq<u32>, l: seq<Dirent>)
    | Reset

  /** Denied is the gate's AccessDenied, Refused any other error. */
  datatype Outcome = Answered | Denied | Refused(rc: u16)

  /** The bootstrap step a property write completes; 0 for none. */
  function SetStep(code: u32, len: nat, value: u32): bv16
  {
    if code == 0xdf01 && len == 2 && value == 20 then CLIENT_STATE
    else if code == 0xd226 && len == 2 && value == 0 then D226_SET
    else if code == 0xd227 && len == 2 && value == 0 then D227_SET
    else if code == 0xdf28 && len == 4 && value == 3 then DF28_SET
    else 0
  }

  function GetStep(code: u32): bv16
  {
    if code == 0xdf28 then DF28_GET else if code == 0xd244 then D244_GET else 0
  }

  function SessionError(session: bool, ok: bool, rc: u16): Option<u16>
  {
    if !session then Some(RC_SESSION_NOT_OPEN) else if !ok then Some(rc) else None
  }

  function Decide(g: Gate, r: Request): Outcome
  {
    match r
    case SetProp(_, _, _) => Answered
    case GetProp(code) =>
      if code in {0xd620, 0xd621} && !Has(g, ENUM_READY) then Denied else Answered
    case ObjectInfo(session, params, l) =>
      (match SessionError(session, |params| == 1, RC_GENERAL_ERROR)
       case Some(rc) => Refused(rc)
       case None =>
         if !Has(g, BOOTSTRAP_READY) then Denied
         else if params[0] != CURRENT_OBJECT || Newest(l) < 0 then Refused(RC_INVALID_OBJECT_HANDLE)
         else Answered)
    case Thumb(session, params, l) =>
      (match SessionError(session, |params| == 1, RC_GENERAL_ERROR)
       case Some(rc) => Refused(rc)
       case None =>
         if !Has(g, CURRENT_INFO) || g.current == 0 then Denied
         else if params[0] != CURRENT_OBJECT || !HasDownloadable(l, g.current) then Refused(RC_INVALID_OBJECT_HANDLE)
         else Answered)
    case ImportFolders(session, params) =>
      (match SessionError(session, params == [], RC_GENERAL_ERROR)
       case Some(rc) => Refused(rc)
       case None => if !Has(g, CURRENT_THUMB) then Denied else Answered)
    case ImportDates(session, params) =>
      (match SessionError(session, params == [0, 0x7530], RC_INVALID_PARAMETER)
       case Some(rc) => Refused(rc)
       case None => if !Has(g, FOLDERS) then Denied else Answered)
    case PartialObject(session, params, l) =>
      (match SessionError(session, |params| == 3, RC_GENERAL_ERROR)
       case Some(rc) => Refused(rc)
       case None =>
         if !Has(g, ENUM_READY) then Denied
         else if !HasDownloadable(l, params[0]) then Refused(RC_INVALID_OBJECT_HANDLE)
         else Answered)
    case Reset => Answered
  }

  function After(g: Gate, r: Request): Gate
  {
    if Decide(g, r) != Answered then g
    else
      match r
      case SetProp(code, len, value) => Mark(g, SetStep(code, len, value))
      case GetProp(code) => Mark(g, GetStep(code))
      case ObjectInfo(_, _, l) => Mark(g.(current := l[Newest(l)].id), CURRENT_INFO)
      case Thumb(_, _, _) => Mark(g, CURRENT_THUMB)
      case ImportFolders(_, _) => Mark(g, FOLDERS)
      case ImportDates(_, _) => Mark(g, DATES)
      case PartialObject(_, _, _) => g
      case Reset => CLOSED
  }

  function Run(rs: seq<Request>): Gate
  {
    if rs == [] then CLOSED else After(Run(rs[..|rs| - 1]), rs[|rs| - 1])
  }

  // ---- The order of the steps ----------------------------------------------------------

  ghost predicate Inv(g: Gate)
  {
    && (Has(g, DATES) ==> Has(g, FOLDERS))
    && (Has(g, FOLDERS) ==> Has(g, CURRENT_THUMB))
    && (Has(g, CURRENT_THUMB) ==> Has(g, CURRENT_INFO))
    && (Has(g, CURRENT_INFO) ==> Has(g, BOOTSTRAP_READY))
    && (Has(g, CURRENT_INFO) <==> g.current != 0)
  }

  lemma OrSets(s: bv16, b: bv16)
    ensures Covers(Join(s, b), b)
  {
  }

  lemma OrSkips(s: bv16, b: bv16, c: bv16)
    requires Apart(c, b)
    ensures Covers(Join(s, b), c) <==> Covers(s, c)
  {
  }

  lemma OrKeeps(s: bv16, b: bv16, c: bv16)
    requires Covers(s, c)
    ensures Covers(Join(s, b), c)
  {
  }

  /** Marking a step sets its bits, touches no other, and clears none. */
  lemma MarkSets(g: Gate, step: bv16)
    ensures Has(Mark(g, step), step)
  {
    hide Covers, Apart, Join;
    OrSets(g.steps, step);
  }

  lemma MarkSkips(g: Gate, step: bv16, steps: bv16)
    requires Apart(steps, step)
    ensures Has(Mark(g, step), steps) <==> Has(g, steps)
  {
    hide Covers, Apart, Join;
    OrSkips(g.steps, step, steps);
  }

  lemma MarkClears(g: Gate, step: bv16, steps: bv16)
    requires Has(g, steps)
    ensures Has(Mark(g, step), steps)
  {
    hide Covers, Apart, Join;
    OrKeeps(g.steps, step, steps);
  }

  /** A step none of whose bits is past the bootstrap changes nothing past it. */
  lemma BootstrapKeeps(g: Gate, step: bv16)
    requires Inv(g) && Apart(step, LATER)
    ensures Inv(Mark(g, step))
  {
    PastBootstrap(step);
    MarkSkips(g, step, DATES);
    MarkSkips(g, step, FOLDERS);
    MarkSkips(g, step, CURRENT_THUMB);
    MarkSkips(g, step, CURRENT_INFO);
    if Has(g, BOOTSTRAP_READY) { MarkClears(g, step, BOOTSTRAP_READY); }
    hide Has;
  }

  lemma PastBootstrap(step: bv16)
    requires Apart(step, LATER)
    ensures Apart(DATES, step) && Apart(FOLDERS, step) && Apart(CURRENT_THUMB, step) && Apart(CURRENT_INFO, step)
  {
  }

  /** The four later steps are taken one behind the other. */
  lemma LaterKeeps(g: Gate, step: bv16)
    requires Inv(g) && step in {CURRENT_THUMB, FOLDERS, DATES}
    requires Has(g, if step == DATES then FOLDERS else if step == FOLDERS then CURRENT_THUMB else CURRENT_INFO)
    ensures Inv(Mark(g, step))
  {
    if step != DATES { MarkSkips(g, step, DATES); }
    if step != FOLDERS { MarkSkips(g, step, FOLDERS); }
    if step != CURRENT_THUMB { MarkSkips(g, step, CURRENT_THUMB); }
    MarkSkips(g, step, CURRENT_INFO);
    MarkSkips(g, step, BOOTSTRAP_READY);
    MarkSets(g, step);
    hide Has;
  }

  lemma AfterKeeps(g: Gate, r: Request)
    requires Inv(g)
    ensures Inv(After(g, r))
  {
    if Decide(g, r) == Answered {
      match r
      case SetProp(code, len, value) => BootstrapKeeps(g, SetStep(code, len, value));
      case GetProp(code) => BootstrapKeeps(g, GetStep(code));
      case ObjectInfo(_, _, l) => InfoKeeps(g, l[Newest(l)].id);
      case Thumb(_, _, _) => LaterKeeps(g, CURRENT_THUMB);
      case ImportFolders(_, _) => LaterKeeps(g, FOLDERS);
      case ImportDates(_, _) => LaterKeeps(g, DATES);
      case PartialObject(_, _, _) =>
      case Reset =>
    }
  }

  lemma InfoKeeps(g: Gate, h: u32)
    requires Inv(g) && Has(g, BOOTSTRAP_READY) && h != 0
    ensures Inv(Mark(g.(current := h), CURRENT_INFO))
  {
    var g' := g.(current := h);
    MarkSkips(g', CURRENT_INFO, DATES);
    MarkSkips(g', CURRENT_INFO, FOLDERS);
    MarkSkips(g', CURRENT_INFO, CURRENT_THUMB);
    MarkSkips(g', CURRENT_INFO, BOOTSTRAP_READY);
    MarkSets(g', CURRENT_INFO);
  }

  lemma {:induction false} RunKeeps(rs: seq<Request>)
    ensures Inv(Run(rs))
  {
    if rs == [] {
    } else {
      RunKeeps(rs[..|rs| - 1]);
      AfterKeeps(Run(rs[..|rs| - 1]), rs[|rs| - 1]);
    }
  }

  /** In every reachable state the ten-bit check comes down to the last bit. */
  lemma EnumReadyIsDates(rs: seq<Request>)
    ensures Has(Run(rs), ENUM_READY) <==> Has(Run(rs), DATES)
  {
    RunKeeps(rs);
    var s := Run(rs).steps;
    assert s & 0x0200 == 0x0200 && s & 0x0100 == 0x0100 && s & 0x0080 == 0x0080 && s & 0x0040 == 0x0040 && s & 0x003f == 0x003f
           <==> s & 0x03ff == 0x03ff;
  }

  // ---- An enumeration is always earned -------------------------------------------------

  ghost predicate NoReset(rs: seq<Request>, from: nat)
  {
    forall k :: from <= k < |rs| ==> !rs[k].Reset?
  }

  /** Request `k` is the one that completed `step`, and it has counted ever since. */
  ghost predicate Completes(rs: seq<Request>, k: nat, step: bv16)
  {
    k < |rs| && NoReset(rs, k) && Decide(Run(rs[..k]), rs[k]) == Answered
    && match rs[k]
       case SetProp(code, len, value) => SetStep(code, len, value) == step
       case GetProp(code) => GetStep(code) == step
       case ObjectInfo(_, _, _) => step == CURRENT_INFO
       case Thumb(_, _, _) => step == CURRENT_THUMB
       case ImportFolders(_, _) => step == FOLDERS
       case ImportDates(_, _) => step == DATES
       case _ => false
  }

  ghost predicate OneStep(step: bv16)
  {
    step in {CLIENT_STATE, DF28_GET, DF28_SET, D226_SET, D227_SET, D244_GET, CURRENT_INFO, CURRENT_THUMB, FOLDERS, DATES}
  }

  lemma {:induction false} WhenCompleted(rs: seq<Request>, step: bv16) returns (k: nat)
    requires OneStep(step) && Has(Run(rs), step)
    ensures Completes(rs, k, step)
  {
    var n := |rs| - 1;
    assert rs != [];
    var g := Run(rs[..n]);
    if Has(g, step) && !rs[n].Reset? {
      k := WhenCompleted(rs[..n], step);
      assert rs[..n][..k] == rs[..k];
    } else {
      k := n;
      NewlySet(g, rs[n], step);
    }
  }

  lemma NewlySet(g: Gate, r: Request, step: bv16)
    requires OneStep(step) && Has(After(g, r), step) && (!Has(g, step) || r.Reset?)
    ensures Decide(g, r) == Answered
    ensures match r
            case SetProp(code, len, value) => SetStep(code, len, value) == step
            case GetProp(code) => GetStep(code) == step
            case ObjectInfo(_, _, _) => step == CURRENT_INFO
            case Thumb(_, _, _) => step == CURRENT_THUMB
            case ImportFolders(_, _) => step == FOLDERS
            case ImportDates(_, _) => step == DATES
            case _ => false
  {
  }

  lemma OneStepEach()
    ensures OneStep(DATES) && OneStep(FOLDERS) && OneStep(CURRENT_THUMB) && OneStep(CURRENT_INFO)
  {
  }

  lemma AnsweredNeedsReady(g: Gate, r: Request)
    requires Decide(g, r) == Answered && (r.PartialObject? || (r.GetProp? && r.code in {0xd620, 0xd621}))
    ensures Has(g, ENUM_READY)
  {
    hide Has;
  }

  /** The request that completed a later step found the step before it completed. */
  lemma StepNeeds(rs: seq<Request>, k: nat, step: bv16)
    requires Completes(rs, k, step)
    ensures k < |rs| && NoReset(rs, k) && Decide(Run(rs[..k]), rs[k]) == Answered
    ensures step == DATES ==> rs[k].ImportDates? && Has(Run(rs[..k]), FOLDERS)
    ensures step == FOLDERS ==> rs[k].ImportFolders? && Has(Run(rs[..k]), CURRENT_THUMB)
    ensures step == CURRENT_THUMB ==> rs[k].Thumb? && Has(Run(rs[..k]), CURRENT_INFO)
    ensures step == CURRENT_INFO ==> rs[k].ObjectInfo?
  {
    hide Has, Run, NoReset;
  }

  /**
   Any run that answers the object count, the handle list or a partial object went through
   0x9054, 0x9055, 0x9050 and 0x9053 in that order, after all six bootstrap steps, with no
   reset in between.
   */
  lemma EnumerationIsEarned(rs: seq<Request>, last: Request)
    returns (info: nat, thumb: nat, folders: nat, dates: nat)
    requires Decide(Run(rs), last) == Answered
    requires last.PartialObject? || (last.GetProp? && last.code in {0xd620, 0xd621})
    ensures info < thumb < folders < dates < |rs| && NoReset(rs, info)
    ensures rs[info].ObjectInfo? && rs[thumb].Thumb? && rs[folders].ImportFolders? && rs[dates].ImportDates?
    ensures Decide(Run(rs[..info]), rs[info]) == Answered && Decide(Run(rs[..thumb]), rs[thumb]) == Answered
    ensures Decide(Run(rs[..folders]), rs[folders]) == Answered && Decide(Run(rs[..dates]), rs[dates]) == Answered
    ensures forall step {:trigger Bootstrap(step)} :: Bootstrap(step) ==> exists k: nat :: k < info && Completes(rs, k, step)
  {
    hide *;
    OneStepEach();
    AnsweredNeedsReady(Run(rs), last);
    EnumReadyIsDates(rs);
    dates := WhenCompleted(rs, DATES);
    StepNeeds(rs, dates, DATES);
    folders := WhenCompleted(rs[..dates], FOLDERS);
    StepNeeds(rs[..dates], folders, FOLDERS);
    assert rs[..dates][..folders] == rs[..folders];
    thumb := WhenCompleted(rs[..folders], CURRENT_THUMB);
    StepNeeds(rs[..folders], thumb, CURRENT_THUMB);
    assert rs[..folders][..thumb] == rs[..thumb];
    info := WhenCompleted(rs[..thumb], CURRENT_INFO);
    StepNeeds(rs[..thumb], info, CURRENT_INFO);
    assert rs[..thumb][..info] == rs[..info];
    NoResetChain(rs, info, thumb, folders, dates);
    forall step | Bootstrap(step)
      ensures exists k: nat :: k < info && Completes(rs, k, step)
    {
      var k := BootstrapWasDone(rs, info, step);
    }
  }

  lemma BootstrapWasDone(rs: seq<Request>, info: nat, step: bv16) returns (k: nat)
    requires Bootstrap(step) && info < |rs| && NoReset(rs, info)
    requires rs[info].ObjectInfo? && Decide(Run(rs[..info]), rs[info]) == Answered
    ensures k < info && Completes(rs, k, step)
  {
    PartOfBootstrap(Run(rs[..info]), step);
    k := WhenCompleted(rs[..info], step);
    assert rs[..info][..k] == rs[..k];
    NoResetChain(rs, k, info, info, info);
  }

  ghost predicate Bootstrap(step: bv16)
  {
    step in {CLIENT_STATE, DF28_GET, DF28_SET, D226_SET, D227_SET, D244_GET}
  }

  lemma PartOfBootstrap(g: Gate, step: bv16)
    requires Bootstrap(step) && Has(g, BOOTSTRAP_READY)
    ensures Has(g, step) && OneStep(step)
  {
  }

  lemma NoResetChain(rs: seq<Request>, a: nat, b: nat, c: nat, d: nat)
    requires a <= b <= c <= d <= |rs|
    requires NoReset(rs[..b], a) && NoReset(rs[..c], b) && NoReset(rs[..d], c) && NoReset(rs, d)
    ensures NoReset(rs, a) && NoReset(rs, b) && NoReset(rs, c)
  {
    forall k | a <= k < |rs|
      ensures !rs[k].Reset?
    {
      if k < b { assert rs[..b][k] == rs[k]; }
      else if k < c { assert rs[..c][k] == rs[k]; }
      else if k < d { assert rs[..d][k] == rs[k]; }
    }
  }

  // ---- The gate in so many words -----------------------------------------------------------

  /** A file of the card with a handle of its own. */
  lemma FilesOnly(l: seq<Dirent>, h: u32)
    ensures HasDownloadable(l, h) <==> exists i :: 0 <= i < |l| && l[i].id == h && h != 0 && !l[i].isDir
    ensures Newest(l) >= 0 <==> exists i :: 0 <= i < |l| && l[i].id != 0 && !l[i].isDir
    ensures Newest(l) >= 0 ==>
              && l[Newest(l)].id != 0 && !l[Newest(l)].isDir
              && forall i :: 0 <= i < |l| && l[i].id != 0 && !l[i].isDir ==> l[i].id <= l[Newest(l)].id
  {
    hide Newest;
    if i :| 0 <= i < |l| && l[i].id == h && h != 0 && !l[i].isDir {
      assert Downloadable(l[i]);
    }
  }

  /** Every answer of the gate: SessionNotOpen, the parameters, AccessDenied, the handle, in this order. */
  lemma AnswersAre(g: Gate, r: Request)
    ensures r.SetProp? || r.Reset? ==> Decide(g, r) == Answered
    ensures r.GetProp? ==>
              Decide(g, r) == if r.code in {0xd620, 0xd621} && g.steps & 0x03ff != 0x03ff then Denied else Answered
    ensures r.ObjectInfo? ==>
              Decide(g, r) ==
              if !r.session then Refused(0x2003)
              else if |r.params| != 1 then Refused(0x2002)
              else if g.steps & 0x003f != 0x003f then Denied
              else if r.params[0] != 0x1000_0001 || !(exists i :: 0 <= i < |r.l| && r.l[i].id != 0 && !r.l[i].isDir) then
                Refused(0x2009)
              else Answered
    ensures r.Thumb? ==>
              Decide(g, r) ==
              if !r.session then Refused(0x2003)
              else if |r.params| != 1 then Refused(0x2002)
              else if g.steps & 0x0040 != 0x0040 || g.current == 0 then Denied
              else if r.params[0] != 0x1000_0001
                      || !(exists i :: 0 <= i < |r.l| && r.l[i].id == g.current && !r.l[i].isDir) then
                Refused(0x2009)
              else Answered
    ensures r.ImportFolders? ==>
              Decide(g, r) ==
              if !r.session then Refused(0x2003)
              else if r.params != [] then Refused(0x2002)
              else if g.steps & 0x0080 != 0x0080 then Denied
              else Answered
    ensures r.ImportDates? ==>
              Decide(g, r) ==
              if !r.session then Refused(0x2003)
              else if r.params != [0, 30000] then Refused(0x201D)
              else if g.steps & 0x0100 != 0x0100 then Denied
              else Answered
    ensures r.PartialObject? ==>
              Decide(g, r) ==
              if !r.session then Refused(0x2003)
              else if |r.params| != 3 then Refused(0x2002)
              else if g.steps & 0x03ff != 0x03ff then Denied
              else if !(exists i :: 0 <= i < |r.l| && r.l[i].id == r.params[0] && r.params[0] != 0 && !r.l[i].isDir) then
                Refused(0x2009)
              else Answered
  {
    hide Newest, HasDownloadable, Has, Covers, Downloadable;
    BitsOf(g);
    match r
    case ObjectInfo(_, _, l) => FilesOnly(l, 0);
    case Thumb(_, _, l) => FilesOnly(l, g.current);
    case PartialObject(_, params, l) => if |params| == 3 { FilesOnly(l, params[0]); }
    case _ =>
  }

  lemma BitsOf(g: Gate)
    ensures Has(g, ENUM_READY) <==> g.steps & 0x03ff == 0x03ff
    ensures Has(g, BOOTSTRAP_READY) <==> g.steps & 0x003f == 0x003f
    ensures Has(g, CURRENT_INFO) <==> g.steps & 0x0040 == 0x0040
    ensures Has(g, CURRENT_THUMB) <==> g.steps & 0x0080 == 0x0080
    ensures Has(g, FOLDERS) <==> g.steps & 0x0100 == 0x0100
  {
  }

  /** What a request marks when it is answered, in the bits the camera keeps. */
  lemma MarksAre(g: Gate, r: Request)
    ensures Decide(g, r) != Answered ==> After(g, r) == g
    ensures Decide(g, r) == Answered && r.Reset? ==> After(g, r).steps == 0 && After(g, r).current == 0
    ensures Decide(g, r) == Answered && !r.Reset? ==>
              After(g, r).steps == Join(g.steps,
                                        match r
                                        case SetProp(0xdf01, 2, 20) => 0x0001
                                        case GetProp(0xdf28) => 0x0002
                                        case SetProp(0xdf28, 4, 3) => 0x0004
                                        case SetProp(0xd226, 2, 0) => 0x0008
                                        case SetProp(0xd227, 2, 0) => 0x0010
                                        case GetProp(0xd244) => 0x0020
                                        case ObjectInfo(_, _, _) => 0x0040
                                        case Thumb(_, _, _) => 0x0080
                                        case ImportFolders(_, _) => 0x0100
                                        case ImportDates(_, _) => 0x0200
                                        case _ => 0)
  {
    hide Decide, Newest, Join, Covers;
    OrNothing(g.steps);
  }

  lemma OrNothing(s: bv16)
    ensures Join(s, 0) == s
  {
  }

  /** Only 0x9054 selects an object: the file with the highest handle. */
  lemma CurrentIs(g: Gate, r: Request)
    ensures Decide(g, r) == Answered && r.ObjectInfo? ==>
              && (exists i :: 0 <= i < |r.l| && r.l[i].id == After(g, r).current && !r.l[i].isDir)
              && (forall i :: 0 <= i < |r.l| && !r.l[i].isDir ==> r.l[i].id <= After(g, r).current)
    ensures Decide(g, r) == Answered && !r.ObjectInfo? && !r.Reset? ==> After(g, r).current == g.current
  {
    if r.ObjectInfo? && Decide(g, r) == Answered {
      AnswersAre(g, r);
      FilesOnly(r.l, 0);
    }
    hide Decide, Newest;
  }

  /** A step is done exactly if its request was answered since the last reset. */
  lemma {:induction false} DoneIff(rs: seq<Request>, step: bv16)
    requires OneStep(step)
    ensures Has(Run(rs), step) <==> exists k :: Completes(rs, k, step)
  {
    if Has(Run(rs), step) {
      var k := WhenCompleted(rs, step);
    }
    if k: nat :| Completes(rs, k, step) {
      StaysDone(rs, k, step);
    }
  }

  lemma {:induction false} StaysDone(rs: seq<Request>, k: nat, step: bv16)
    requires OneStep(step) && Completes(rs, k, step)
    ensures Has(Run(rs), step)
    decreases |rs|
  {
    var n := |rs| - 1;
    var g := Run(rs[..n]);
    if k == n {
      MarkedNow(g, rs[n], step);
    } else {
      assert rs[..n][..k] == rs[..k];
      assert NoReset(rs[..n], k);
      hide Has;
      StaysDone(rs[..n], k, step);
      StillMarked(g, rs[n], step);
    }
  }

  lemma MarkedNow(g: Gate, r: Request, step: bv16)
    requires Decide(g, r) == Answered && step != 0
    requires match r
             case SetProp(code, len, value) => SetStep(code, len, value) == step
             case GetProp(code) => GetStep(code) == step
             case ObjectInfo(_, _, _) => step == CURRENT_INFO
             case Thumb(_, _, _) => step == CURRENT_THUMB
             case ImportFolders(_, _) => step == FOLDERS
             case ImportDates(_, _) => step == DATES
             case _ => false
    ensures Has(After(g, r), step)
  {
    MarkSets(if r.ObjectInfo? then g.(current := r.l[Newest(r.l)].id) else g, step);
    hide Has, Newest;
  }

  lemma StillMarked(g: Gate, r: Request, step: bv16)
    requires Has(g, step) && !r.Reset?
    ensures Has(After(g, r), step)
  {
    if Decide(g, r) == Answered {
      match r
      case SetProp(code, len, value) => MarkClears(g, SetStep(code, len, value), step);
      case GetProp(code) => MarkClears(g, GetStep(code), step);
      case ObjectInfo(_, _, l) => InfoClears(g, l[Newest(l)].id, step);
      case Thumb(_, _, _) => MarkClears(g, CURRENT_THUMB, step);
      case ImportFolders(_, _) => MarkClears(g, FOLDERS, step);
      case ImportDates(_, _) => MarkClears(g, DATES, step);
      case PartialObject(_, _, _) =>
    }
    hide Covers;
  }

  lemma InfoClears(g: Gate, h: u32, step: bv16)
    requires Has(g, step)
    ensures Has(Mark(g.(current := h), CURRENT_INFO), step)
  {
    MarkClears(g.(current := h), CURRENT_INFO, step);
  }

  /** Request `k` is `r`, with no reset since. */
  ghost predicate Since(rs: seq<Request>, k: nat, r: Request)
  {
    k < |rs| && rs[k] == r && forall j :: k <= j < |rs| ==> !rs[j].Reset?
  }

  /** The bootstrap is complete exactly if six requests were made since the last reset, in any order. */
  lemma BootstrapIff(rs: seq<Request>)
    ensures Run(rs).steps & 0x003f == 0x003f <==>
            && (exists k :: Since(rs, k, SetProp(0xdf01, 2, 20)))
            && (exists k :: Since(rs, k, GetProp(0xdf28)))
            && (exists k :: Since(rs, k, SetProp(0xdf28, 4, 3)))
            && (exists k :: Since(rs, k, SetProp(0xd226, 2, 0)))
            && (exists k :: Since(rs, k, SetProp(0xd227, 2, 0)))
            && (exists k :: Since(rs, k, GetProp(0xd244)))
  {
    SixBits(Run(rs).steps);
    RequestIff(rs, SetProp(0xdf01, 2, 20), 0x0001);
    RequestIff(rs, GetProp(0xdf28), 0x0002);
    RequestIff(rs, SetProp(0xdf28, 4, 3), 0x0004);
    RequestIff(rs, SetProp(0xd226, 2, 0), 0x0008);
    RequestIff(rs, SetProp(0xd227, 2, 0), 0x0010);
    RequestIff(rs, GetProp(0xd244), 0x0020);
    hide Since, Run;
  }

  lemma SixBits(s: bv16)
    ensures s & 0x003f == 0x003f <==>
            && Covers(s, 0x0001) && Covers(s, 0x0002) && Covers(s, 0x0004)
            && Covers(s, 0x0008) && Covers(s, 0x0010) && Covers(s, 0x0020)
  {
  }

  lemma RequestIff(rs: seq<Request>, r: Request, step: bv16)
    requires Bootstrap(step)
    requires r == (match step
                   case 0x0001 => SetProp(0xdf01, 2, 20)
                   case 0x0002 => GetProp(0xdf28)
                   case 0x0004 => SetProp(0xdf28, 4, 3)
                   case 0x0008 => SetProp(0xd226, 2, 0)
                   case 0x0010 => SetProp(0xd227, 2, 0)
                   case _ => GetProp(0xd244))
    ensures Covers(Run(rs).steps, step) <==> exists k :: Since(rs, k, r)
  {
    assert OneStep(step);
    DoneIff(rs, step);
    forall k: nat
      ensures Completes(rs, k, step) <==> Since(rs, k, r)
    {
      if k < |rs| {
        StepIsRequest(Run(rs[..k]), rs[k], r, step);
      }
    }
    hide Run, Covers;
  }

  lemma StepIsRequest(g: Gate, q: Request, r: Request, step: bv16)
    requires Bootstrap(step)
    requires r == (match step
                   case 0x0001 => SetProp(0xdf01, 2, 20)
                   case 0x0002 => GetProp(0xdf28)
                   case 0x0004 => SetProp(0xdf28, 4, 3)
                   case 0x0008 => SetProp(0xd226, 2, 0)
                   case 0x0010 => SetProp(0xd227, 2, 0)
                   case _ => GetProp(0xd244))
    ensures q == r <==>
            Decide(g, q) == Answered
            && match q
               case SetProp(code, len, value) => SetStep(code, len, value) == step
               case GetProp(code) => GetStep(code) == step
               case ObjectInfo(_, _, _) => step == CURRENT_INFO
               case Thumb(_, _, _) => step == CURRENT_THUMB
               case ImportFolders(_, _) => step == FOLDERS
               case ImportDates(_, _) => step == DATES
               case _ => false
  {
    hide Has;
  }

  // ---- The handlers --------------------------------------------------------------------

  class Importer {
    var session: bool
    var steps: bv16
    var currentHandle: u32

    function State(): Gate
      reads this
    {
      Gate(steps, currentHandle)
    }

    method ResetImportState()
      modifies this`steps, this`currentHandle
      ensures State() == After(old(State()), Reset)
    {
      steps := 0;
      currentHandle := 0;
    }

    method MarkStep(step: bv16)
      modifies this`steps
      ensures State() == Mark(old(State()), step)
    {
      steps := steps | step;
    }

    /** The data phase of SetDevicePropValue, for the properties that count as steps. */
    method SetPropValue(code: u32, len: nat, value: u32)
      modifies this`steps
      ensures State() == After(old(State()), SetProp(code, len, value))
    {
      MarkNothing(State());
      if code == 0xdf01 {
        if len == 2 && value == 20 { MarkStep(CLIENT_STATE); }
      } else if code == 0xd226 {
        if len == 2 && value == 0 { MarkStep(D226_SET); }
      } else if code == 0xd227 {
        if len == 2 && value == 0 { MarkStep(D227_SET); }
      } else if code == 0xdf28 {
        if len == 4 && value == 3 { MarkStep(DF28_SET); }
      }
    }

    method GetPropValue(code: u32) returns (r: Outcome)
      modifies this`steps
      ensures r == Decide(old(State()), GetProp(code)) && State() == After(old(State()), GetProp(code))
    {
      MarkNothing(State());
      if code == 0xdf28 {
        MarkStep(DF28_GET);
      } else if code == 0xd244 {
        MarkStep(D244_GET);
      } else if code == 0xd620 || code == 0xd621 {
        if steps & ENUM_READY != ENUM_READY {
          return Denied;
        }
      }
      return Answered;
    }

    method GetExtensionObjectInfo(params: seq<u32>, l: seq<Dirent>) returns (r: Outcome)
      modifies this`steps, this`currentHandle
      ensures r == Decide(old(State()), ObjectInfo(session, params, l))
      ensures State() == After(old(State()), ObjectInfo(session, params, l))
    {
      if !session { return Refused(RC_SESSION_NOT_OPEN); }
      if |params| != 1 { return Refused(RC_GENERAL_ERROR); }
      if steps & BOOTSTRAP_READY != BOOTSTRAP_READY { return Denied; }
      if params[0] != CURRENT_OBJECT { return Refused(RC_INVALID_OBJECT_HANDLE); }
      var newest := FindNewest(l);
      if newest < 0 { return Refused(RC_INVALID_OBJECT_HANDLE); }
      currentHandle := l[newest].id;
      MarkStep(CURRENT_INFO);
      return Answered;
    }

    method GetExtensionThumb(params: seq<u32>, l: seq<Dirent>) returns (r: Outcome)
      modifies this`steps
      ensures r == Decide(old(State()), Thumb(session, params, l))
      ensures State() == After(old(State()), Thumb(session, params, l))
    {
      if !session { return Refused(RC_SESSION_NOT_OPEN); }
      if |params| != 1 { return Refused(RC_GENERAL_ERROR); }
      if steps & CURRENT_INFO != CURRENT_INFO || currentHandle == 0 { return Denied; }
      if params[0] != CURRENT_OBJECT { return Refused(RC_INVALID_OBJECT_HANDLE); }
      var found := FindDownloadable(l, currentHandle);
      if !found { return Refused(RC_INVALID_OBJECT_HANDLE); }
      MarkStep(CURRENT_THUMB);
      return Answered;
    }

    method GetImageImportFolders(params: seq<u32>) returns (r: Outcome)
      modifies this`steps
      ensures r == Decide(old(State()), ImportFolders(session, params))
      ensures State() == After(old(State()), ImportFolders(session, params))
    {
      if !session { return Refused(RC_SESSION_NOT_OPEN); }
      if |params| != 0 { return Refused(RC_GENERAL_ERROR); }
      if steps & CURRENT_THUMB != CURRENT_THUMB { return Denied; }
      MarkStep(FOLDERS);
      return Answered;
    }

    method GetImageImportDates(params: seq<u32>) returns (r: Outcome)
      modifies this`steps
      ensures r == Decide(old(State()), ImportDates(session, params))
      ensures State() == After(old(State()), ImportDates(session, params))
    {
      if !session { return Refused(RC_SESSION_NOT_OPEN); }
      if |params| != 2 || params[0] != 0 || params[1] != 0x7530 { return Refused(RC_INVALID_PARAMETER); }
      if steps & FOLDERS != FOLDERS { return Denied; }
      MarkStep(DATES);
      return Answered;
    }

    method GetExtensionPartialObject(params: seq<u32>, l: seq<Dirent>) returns (r: Outcome)
      ensures r == Decide(State(), PartialObject(session, params, l))
      ensures State() == After(State(), PartialObject(session, params, l))
    {
      if !session { return Refused(RC_SESSION_NOT_OPEN); }
      if |params| != 3 { return Refused(RC_GENERAL_ERROR); }
      if steps & ENUM_READY != ENUM_READY { return Denied; }
      var found := FindDownloadable(l, params[0]);
      if !found { return Refused(RC_INVALID_OBJECT_HANDLE); }
      return Answered;
    }
  }

  lemma MarkNothing(g: Gate)
    ensures Mark(g, 0) == g
  {
  }

  method FindNewest(l: seq<Dirent>) returns (newest: int)
    ensures newest == Newest(l)
  {
    newest := -1;
    for i := 0 to |l|
      invariant newest == Newest(l[..i])
    {
      assert l[..i + 1][..i] == l[..i];
      if Downloadable(l[i]) && (newest < 0 || l[i].id > l[newest].id) {
        newest := i;
      }
    }
    assert l[..|l|] == l;
  }

  method FindDownloadable(l: seq<Dirent>, h: u32) returns (found: bool)
    ensures found == HasDownloadable(l, h)
  {
    found := false;
    for i := 0 to |l|
      invariant forall k :: 0 <= k < i ==> !(Downloadable(l[k]) && l[k].id == h)
    {
      if Downloadable(l[i]) && l[i].id == h {
        return true;
      }
    }
  }
}
