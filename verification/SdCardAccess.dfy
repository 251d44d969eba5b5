/**
  Access tokens for the SD cards and the change of the active card,
  bsp_sam9g20/memory/SDCardAccess.cpp and SDCAccessManager.cpp (the iOBC branch).

  The source protects the shared fields with a mutex; the bodies under it are atomic steps here (see
  README.md for this assumption).  The part of the destructor before the mutex is a step of its own.
 */
module SdCardAccess {

  datatype VolumeId = SD_CARD_0 | SD_CARD_1

  datatype AccessResult = RETURN_OK | RETURN_FAILED | SD_CARD_CHANGE_ONGOING

  /** A token is live from the step that grants it until its destructor gives it back. */
  datatype Stage = Denied | Granted | Released | Gone

  datatype Token = Token(volume: VolumeId, result: AccessResult, stage: Stage)

  datatype FsCall = Open | Close

  /** The fields of the manager; all tokens ever made, in order; the calls that have opened and closed
      the file system; and the greatest number of tokens that were ever live at a time. */
  datatype State = State(changingSdCard: bool, activeAccesses: nat, activeSdCard: VolumeId,
                         tokens: seq<Token>, calls: seq<FsCall>, peak: nat)

  /** opens, selects: whether open_filesystem and select_sd_card succeed; junk: what the volume of a
      denied token, which is never set, happens to be. */
  datatype Action = Create(opens: bool, selects: bool, junk: VolumeId) | Release(id: nat) | Drop(id: nat) | TryChange

  const COUNTER_SIZE: nat := 256   // activeAccesses is a uint8_t

  function Counter(n: nat): nat {
    n % COUNTER_SIZE
  }

  lemma CountedUp(n: nat)
    ensures Counter(Counter(n) + 1) == Counter(n + 1)
  {
  }

  lemma CountedDown(n: nat)
    requires n > 0
    ensures Counter(Counter(n) + COUNTER_SIZE - 1) == Counter(n - 1)
  {
    CountedUp(n - 1);
  }

  lemma CounterFacts(n: nat)
    ensures Counter(Counter(n) + 1) == Counter(n + 1)
    ensures n > 0 ==> Counter(Counter(n) + COUNTER_SIZE - 1) == Counter(n - 1)
    ensures n < COUNTER_SIZE ==> Counter(n) == n
    ensures Counter(COUNTER_SIZE) == 0 && Counter(n) == n % 256
  {
    CountedUp(n);
    if n > 0 { CountedDown(n); }
  }

  function Other(v: VolumeId): VolumeId {
    if v == SD_CARD_0 then SD_CARD_1 else SD_CARD_0
  }

  predicate IsLive(t: Token) {
    t.stage == Granted || t.stage == Released
  }

  function Live(ts: seq<Token>): nat {
    if ts == [] then 0 else Live(ts[..|ts|-1]) + (if IsLive(ts[|ts|-1]) then 1 else 0)
  }

  function Max(a: nat, b: nat): nat {
    if a < b then b else a
  }

  ghost predicate Enabled(s: State, a: Action) {
    match a
    case Create(_, _, _) => true
    case Release(id) => id < |s.tokens| && s.tokens[id].stage == Granted
    case Drop(id) => id < |s.tokens| && s.tokens[id].stage == Released
    case TryChange => true
  }

  function ResultOf(opens: bool, selects: bool, opening: bool): AccessResult {
    if opening && !opens then RETURN_FAILED else if !selects then RETURN_FAILED else RETURN_OK
  }

  function DoCreate(s: State, opens: bool, selects: bool, junk: VolumeId): State {
    if s.changingSdCard then
      s.(tokens := s.tokens + [Token(junk, SD_CARD_CHANGE_ONGOING, Denied)])
    else
      var opening := s.activeAccesses == 0;
      var tokens := s.tokens + [Token(s.activeSdCard, ResultOf(opens, selects, opening), Granted)];
      s.(tokens := tokens, calls := if opening then s.calls + [Open] else s.calls,
         activeAccesses := Counter(s.activeAccesses + 1), peak := Max(s.peak, Live(tokens)))
  }

  function DoDrop(s: State, id: nat): State
    requires id < |s.tokens|
  {
    var left := Counter(s.activeAccesses + COUNTER_SIZE - 1);
    s.(tokens := s.tokens[id := s.tokens[id].(stage := Gone)], activeAccesses := left,
       calls := if left == 0 then s.calls + [Close] else s.calls)
  }

  function DoTryChange(s: State): State {
    if s.activeAccesses == 0 then s.(activeSdCard := Other(s.activeSdCard), changingSdCard := false)
    else s.(changingSdCard := true)
  }

  function Step(s: State, a: Action): State
    requires Enabled(s, a)
  {
    match a
    case Create(opens, selects, junk) => DoCreate(s, opens, selects, junk)
    case Release(id) => s.(tokens := s.tokens[id := s.tokens[id].(stage := Released)])
    case Drop(id) => DoDrop(s, id)
    case TryChange => DoTryChange(s)
  }

  function Start(preferred: VolumeId): State {
    State(false, 0, preferred, [], [], 0)
  }

  // ---------- what every step keeps ----------

  /** Open, Close, Open, ... */
  ghost predicate Alternating(calls: seq<FsCall>) {
    forall i :: 0 <= i < |calls| ==> calls[i] == if i % 2 == 0 then Open else Close
  }

  /** The counter is the number of live tokens, as far as it goes. */
  ghost predicate Counted(s: State) {
    s.activeAccesses == Counter(Live(s.tokens)) && Live(s.tokens) <= s.peak
  }

  /** Unless more tokens than it can count were ever live: the file system is open exactly while a
      token is live, calls to open and close it take turns, and live tokens are for the active card. */
  ghost predicate Orderly(s: State) {
    && Alternating(s.calls)
    && (Live(s.tokens) > 0 <==> |s.calls| % 2 == 1)
    && (forall id :: 0 <= id < |s.tokens| && IsLive(s.tokens[id]) ==> s.tokens[id].volume == s.activeSdCard)
  }

  ghost predicate Inv(s: State) {
    Counted(s) && (s.peak < COUNTER_SIZE ==> Orderly(s))
  }

  lemma {:induction false} LiveAfterUpdate(ts: seq<Token>, id: nat, t: Token)
    requires id < |ts|
    ensures Live(ts[id := t]) == Live(ts) + (if IsLive(t) then 1 else 0) - (if IsLive(ts[id]) then 1 else 0)
    decreases |ts|
  {
    var n := |ts| - 1;
    var us := ts[id := t];
    if id == n {
      assert us[..n] == ts[..n];
    } else {
      assert us[..n] == ts[..n][id := t];
      LiveAfterUpdate(ts[..n], id, t);
    }
  }

  lemma LiveAfterAppend(ts: seq<Token>, t: Token)
    ensures Live(ts + [t]) == Live(ts) + (if IsLive(t) then 1 else 0)
  {
    assert (ts + [t])[..|ts|] == ts;
  }

  lemma {:induction false} LiveIfOneIs(ts: seq<Token>, id: nat)
    requires id < |ts| && IsLive(ts[id])
    ensures Live(ts) > 0
    decreases |ts|
  {
    if id < |ts| - 1 { LiveIfOneIs(ts[..|ts|-1], id); }
  }

  /** How many tokens are live after a step. */
  lemma LiveAfterStep(s: State, a: Action)
    requires Enabled(s, a)
    ensures Live(Step(s, a).tokens) ==
            Live(s.tokens) + (if a.Create? && !s.changingSdCard then 1 else 0) - (if a.Drop? then 1 else 0)
    ensures a.Drop? ==> Live(s.tokens) > 0
  {
    match a
    case Create(opens, selects, junk) =>
      LiveAfterAppend(s.tokens, Step(s, a).tokens[|s.tokens|]);
    case Release(id) => LiveAfterUpdate(s.tokens, id, s.tokens[id].(stage := Released));
    case Drop(id) =>
      LiveAfterUpdate(s.tokens, id, s.tokens[id].(stage := Gone));
      LiveIfOneIs(s.tokens, id);
    case TryChange =>
  }

  lemma StepKeepsCount(s: State, a: Action)
    requires Counted(s) && Enabled(s, a)
    ensures Counted(Step(s, a)) && s.peak <= Step(s, a).peak
  {
    hide Counter;
    CounterFacts(Live(s.tokens));
    LiveAfterStep(s, a);
  }

  lemma StepKeepsOrder(s: State, a: Action)
    requires Counted(s) && Orderly(s) && Enabled(s, a) && Step(s, a).peak < COUNTER_SIZE
    ensures Orderly(Step(s, a))
  {
    hide Counter, Live;
    CounterFacts(Live(s.tokens));
    CounterFacts(Live(Step(s, a).tokens));
    LiveAfterStep(s, a);
    StepKeepsCount(s, a);
    if a == TryChange {
      forall id | 0 <= id < |s.tokens|
        ensures Live(s.tokens) == 0 ==> !IsLive(s.tokens[id])
      {
        if IsLive(s.tokens[id]) { LiveIfOneIs(s.tokens, id); }
      }
    }
  }

  lemma StepKeepsAll(s: State, a: Action)
    requires Inv(s) && Enabled(s, a)
    ensures Inv(Step(s, a))
  {
    StepKeepsCount(s, a);
    if Step(s, a).peak < COUNTER_SIZE { StepKeepsOrder(s, a); }
  }

  // ---------- what the protocol promises ----------

  /** The file system is opened exactly by a step that grants a token while a multiple of 256 are live,
      and closed exactly by a step that gives one back and leaves such a number: with at most 255 live
      tokens, by the step from none to one, and by that from one to none. */
  lemma OpensAndClosesExactly(s: State, a: Action)
    requires Inv(s) && Enabled(s, a)
    ensures var t, before, after := Step(s, a), Live(s.tokens), Live(Step(s, a).tokens);
            && t.calls == s.calls + (if after > before && before % 256 == 0 then [Open]
                                     else if after < before && after % 256 == 0 then [Close] else [])
            && (t.peak < 256 ==>
                  t.calls == s.calls + (if before == 0 && after == 1 then [Open]
                                        else if before == 1 && after == 0 then [Close] else []))
  {
    hide Counter, Orderly;
    LiveAfterStep(s, a);
    StepKeepsCount(s, a);
    CounterFacts(Live(s.tokens));
    CounterFacts(Live(Step(s, a).tokens));
  }

  /** A step changes the active card exactly if it is an attempt to change it, and no token is live or
      a multiple of 256 of them: while at most 255 tokens are live, the card never changes under one. */
  lemma CardChangesExactly(s: State, a: Action)
    requires Inv(s) && Enabled(s, a)
    ensures Step(s, a).activeSdCard != s.activeSdCard <==> a == TryChange && Live(s.tokens) % 256 == 0
    ensures s.peak < 256 && Step(s, a).activeSdCard != s.activeSdCard ==> Live(s.tokens) == 0
  {
    hide Counter, Live, Orderly;
    CounterFacts(Live(s.tokens));
  }

  ghost predicate IsRun(s: State, run: seq<Action>)
    decreases |run|
  {
    run == [] || (Enabled(s, run[0]) && IsRun(Step(s, run[0]), run[1..]))
  }

  function After(s: State, run: seq<Action>): State
    requires IsRun(s, run)
    decreases |run|
  {
    if run == [] then s else After(Step(s, run[0]), run[1..])
  }

  lemma {:induction false} RunKeepsAll(s: State, run: seq<Action>)
    requires Inv(s) && IsRun(s, run)
    ensures Inv(After(s, run))
    decreases |run|
  {
    if run != [] {
      StepKeepsAll(s, run[0]);
      RunKeepsAll(Step(s, run[0]), run[1..]);
    }
  }

  lemma StartIsSound(preferred: VolumeId)
    ensures var s := Start(preferred); Inv(s) && Live(s.tokens) == 0 && !s.changingSdCard
  {
  }

  /** For every interleaving from the start: the counter is the number of live tokens, the file system
      is open exactly while one is live, and all of them are for the active card, unless 256 tokens
      were live at a time. */
  lemma EveryInterleaving(preferred: VolumeId, run: seq<Action>)
    requires IsRun(Start(preferred), run)
    ensures var s := After(Start(preferred), run);
            && s.activeAccesses == Live(s.tokens) % 256
            && (s.peak < 256 ==> Orderly(s) && s.activeAccesses == Live(s.tokens))
  {
    hide Counter, Live, Orderly, IsRun, After, Start;
    StartIsSound(preferred);
    RunKeepsAll(Start(preferred), run);
    CounterFacts(Live(After(Start(preferred), run).tokens));
  }

  /** Whether the last attempt along the run, or before it, was refused: a number of tokens that is not
      a multiple of 256 was live then. */
  ghost predicate LastRefused(s: State, run: seq<Action>, before: bool)
    requires IsRun(s, run)
    decreases |run|
  {
    if run == [] then before
    else LastRefused(Step(s, run[0]), run[1..], if run[0] == TryChange then Counter(Live(s.tokens)) != 0 else before)
  }

  lemma {:induction false} ChangingSinceRefusal(s: State, run: seq<Action>)
    requires Inv(s) && IsRun(s, run)
    ensures After(s, run).changingSdCard <==> LastRefused(s, run, s.changingSdCard)
    decreases |run|
  {
    hide Counter, Live, Orderly;
    if run != [] {
      StepKeepsAll(s, run[0]);
      ChangingSinceRefusal(Step(s, run[0]), run[1..]);
    }
  }

  /** After every run from the start, the next token is granted if and only if the last attempt to change
      the card was not refused; it is then for the active card, and one more is live. */
  lemma GrantedExactly(preferred: VolumeId, run: seq<Action>, opens: bool, selects: bool, junk: VolumeId)
    requires IsRun(Start(preferred), run)
    ensures var s := After(Start(preferred), run);
            var t, refused := Step(s, Create(opens, selects, junk)), LastRefused(Start(preferred), run, false);
            && |t.tokens| == |s.tokens| + 1 && t.tokens[..|s.tokens|] == s.tokens
            && (t.tokens[|s.tokens|].stage == Granted <==> !refused)
            && (t.tokens[|s.tokens|].result == SD_CARD_CHANGE_ONGOING <==> refused)
            && (!refused ==> t.tokens[|s.tokens|].volume == t.activeSdCard == s.activeSdCard)
            && (t.tokens[|s.tokens|].result == RETURN_OK <==>
                  !refused && selects && (Live(s.tokens) % 256 != 0 || opens))
            && Live(t.tokens) == Live(s.tokens) + (if refused then 0 else 1)
  {
    hide Live, Counter, Orderly, Start, IsRun, After, LastRefused;
    StartIsSound(preferred);
    RunKeepsAll(Start(preferred), run);
    CounterFacts(Live(After(Start(preferred), run).tokens));
    ChangingSinceRefusal(Start(preferred), run);
    LiveAfterStep(After(Start(preferred), run), Create(opens, selects, junk));
  }

  function Drops(run: seq<Action>): nat {
    if run == [] then 0 else (if run[0].Drop? then 1 else 0) + Drops(run[1..])
  }

  /** No attempt along the run has succeeded. */
  ghost predicate NoChange(s: State, run: seq<Action>)
    requires IsRun(s, run)
    decreases |run|
  {
    run == [] || (!(run[0] == TryChange && s.activeAccesses == 0) && NoChange(Step(s, run[0]), run[1..]))
  }

  /** After a refused attempt and until an attempt succeeds, no token is granted: the number of live
      ones is what it was less those given back ... */
  lemma {:induction false} NoneGrantedDuringChange(s: State, run: seq<Action>)
    requires s.changingSdCard && IsRun(s, run) && NoChange(s, run)
    ensures var t := After(s, run);
            && t.changingSdCard && t.activeSdCard == s.activeSdCard
            && Live(t.tokens) == Live(s.tokens) - Drops(run)
            && |s.tokens| <= |t.tokens| && forall id :: |s.tokens| <= id < |t.tokens| ==> t.tokens[id].stage == Denied
    decreases |run|
  {
    hide Counter;
    if run != [] {
      var a, u := run[0], Step(s, run[0]);
      LiveAfterStep(s, a);
      NoneGrantedDuringChange(u, run[1..]);
      if a.Create? { DeniedStays(u, run[1..], |s.tokens|); }
    }
  }

  lemma {:induction false} DeniedStays(s: State, run: seq<Action>, id: nat)
    requires IsRun(s, run) && id < |s.tokens| && s.tokens[id].stage == Denied
    ensures id < |After(s, run).tokens| && After(s, run).tokens[id].stage == Denied
    decreases |run|
  {
    if run != [] { DeniedStays(Step(s, run[0]), run[1..], id); }
  }

  /** ... so that the next attempt succeeds if and only if all of them were given back, and the one that
      succeeds is the first after that. */
  lemma ChangeSucceedsOnceAllDropped(s: State, run: seq<Action>)
    requires Inv(s) && s.changingSdCard && Live(s.tokens) < 256 && IsRun(s, run) && NoChange(s, run)
    ensures var t := After(s, run);
            && Drops(run) <= Live(s.tokens)
            && (Step(t, TryChange).activeSdCard == Other(s.activeSdCard) <==> Drops(run) == Live(s.tokens))
            && (Drops(run) == Live(s.tokens) ==> !Step(t, TryChange).changingSdCard)
  {
    hide Counter, Live, Orderly, Drops;
    CounterFacts(Live(After(s, run).tokens));
    NoneGrantedDuringChange(s, run);
    RunKeepsAll(s, run);
  }

  // ---------- 256 tokens ----------

  function Creations(n: nat): seq<Action> {
    if n == 0 then [] else [Create(true, true, SD_CARD_0)] + Creations(n - 1)
  }

  lemma {:induction false} AfterCreations(s: State, n: nat)
    requires !s.changingSdCard
    ensures IsRun(s, Creations(n)) && !After(s, Creations(n)).changingSdCard
    ensures Live(After(s, Creations(n)).tokens) == Live(s.tokens) + n
    ensures After(s, Creations(n)).activeSdCard == s.activeSdCard
    decreases n
  {
    hide Counter;
    if n > 0 {
      var a := Create(true, true, SD_CARD_0);
      assert Creations(n)[0] == a && Creations(n)[1..] == Creations(n - 1);
      LiveAfterStep(s, a);
      AfterCreations(Step(s, a), n - 1);
    }
  }

  /** With 256 live tokens the counter is back at zero, and the card changes under all of them. */
  lemma CardChangesUnder256Tokens(preferred: VolumeId)
    ensures IsRun(Start(preferred), Creations(256))
    ensures var s := After(Start(preferred), Creations(256));
            Live(s.tokens) == 256 && Step(s, TryChange).activeSdCard != s.activeSdCard
  {
    hide Counter, Live, Orderly, Creations, IsRun, After, Start;
    CounterFacts(256);
    StartIsSound(preferred);
    AfterCreations(Start(preferred), 256);
    RunKeepsAll(Start(preferred), Creations(256));
  }

  // ---------- the code ----------

  const VOLUME_ID_SIZE: nat := 0x100   // a VolumeId has one byte, as is usual for enumerations on the target

  /** The volume that the manager makes of the number in the FRAM, with volumes of this many values: it
      takes the number for a volume, and looks at the last byte only to see whether it is a valid one. */
  function VolumeFor(raw: nat, idSize: nat): nat
    requires idSize > 0
  {
    var volume := raw % idSize;
    if volume % 0x100 in {0, 1} then volume else 0
  }

  function ActiveCardFor(raw: nat): VolumeId {
    if VolumeFor(raw, VOLUME_ID_SIZE) == 1 then SD_CARD_1 else SD_CARD_0
  }

  /** The manager, and what it has been through. */
  class SDCardAccessManager {
    var changingSdCard: bool
    var activeAccesses: nat
    var activeSdCard: VolumeId
    ghost const start: VolumeId
    ghost var s: State
    ghost var run: seq<Action>

    ghost predicate Valid()
      reads this
    {
      && changingSdCard == s.changingSdCard && activeAccesses == s.activeAccesses && activeSdCard == s.activeSdCard
      && Reached()
    }

    /** The state is one that an interleaving of the steps leads to. */
    ghost predicate Reached()
      reads this`s, this`run
    {
      Inv(s) && IsRun(Start(start), run) && After(Start(start), run) == s
    }

    /** preferred: the raw number read from the FRAM. */
    constructor (preferred: nat)
      ensures Valid() && s == Start(ActiveCardFor(preferred)) && run == []
    {
      changingSdCard := false;
      activeAccesses := 0;
      var volume := preferred % VOLUME_ID_SIZE;
      var raw := volume % 0x100;
      var card :=
        if raw != 0 && raw != 1 then SD_CARD_0
        else if volume == 0 then SD_CARD_0 else SD_CARD_1;
      activeSdCard, start, s, run := card, card, Start(card), [];
    }

    lemma ReachedIsSound()
      requires Reached()
      ensures Inv(s)
    {
    }

    ghost method Did(a: Action)
      requires Reached() && Enabled(s, a)
      modifies this`s, this`run
      ensures s == Step(old(s), a) && run == old(run) + [a] && Reached()
    {
      StepKeepsAll(s, a);
      RunStep(Start(start), run, a);
      s := Step(s, a);
      run := run + [a];
    }

    method GetSdCardChangeOngoing() returns (ongoing: bool)
      requires Valid()
      ensures ongoing <==> s.changingSdCard
    {
      return changingSdCard;
    }

    method TryActiveSdCardChange() returns (changed: bool)
      requires Valid()
      modifies this
      ensures Valid() && s == Step(old(s), TryChange) && run == old(run) + [TryChange]
      ensures changed <==> s.activeSdCard != old(s).activeSdCard
      ensures changed <==> !s.changingSdCard
    {
      if changingSdCard == false {
        changingSdCard := true;
      }
      changed := false;
      if activeAccesses == 0 {
        if activeSdCard == SD_CARD_0 {
          activeSdCard := SD_CARD_1;
        } else {
          activeSdCard := SD_CARD_0;
        }
        changingSdCard := false;
        changed := true;
      }
      Did(TryChange);
    }
  }

  lemma {:induction false} RunStep(s: State, run: seq<Action>, a: Action)
    requires IsRun(s, run) && Enabled(After(s, run), a)
    ensures IsRun(s, run + [a]) && After(s, run + [a]) == Step(After(s, run), a)
    decreases |run|
  {
    if run == [] {
      assert [] + [a] == [a] && [a][1..] == [];
    } else {
      assert (run + [a])[0] == run[0] && (run + [a])[1..] == run[1..] + [a];
      RunStep(Step(s, run[0]), run[1..], a);
    }
  }

  lemma DropFacts(s: State, id: nat)
    requires Inv(s) && Enabled(s, Drop(id))
    ensures var t := Step(s, Drop(id));
            t.peak < COUNTER_SIZE ==> (t.activeAccesses == 0 <==> Live(t.tokens) == 0)
  {
    StepKeepsAll(s, Drop(id));
    CounterFacts(Live(Step(s, Drop(id)).tokens));
  }

  lemma CreateFacts(s: State, opens: bool, selects: bool, junk: VolumeId)
    ensures Enabled(s, Create(opens, selects, junk))
    ensures var t, n := Step(s, Create(opens, selects, junk)), |s.tokens|;
            && t.changingSdCard == s.changingSdCard && t.activeSdCard == s.activeSdCard && |t.tokens| == n + 1
            && t.activeAccesses == (if s.changingSdCard then s.activeAccesses else Counter(s.activeAccesses + 1))
            && t.tokens[n] == if s.changingSdCard then Token(junk, SD_CARD_CHANGE_ONGOING, Denied)
                              else Token(s.activeSdCard, ResultOf(opens, selects, s.activeAccesses == 0), Granted)
    ensures ResultOf(opens, selects, s.activeAccesses == 0) ==
            if (s.activeAccesses == 0 && !opens) || !selects then RETURN_FAILED else RETURN_OK
  {
  }

  /** A token. */
  class SDCardAccess {
    const manager: SDCardAccessManager
    var accessSuccess: bool
    var accessResult: AccessResult
    var currentVolumeId: VolumeId
    ghost var id: nat

    /** The token is number `id` of the manager's. */
    ghost predicate Valid()
      reads this, manager
    {
      && manager.Valid() && id < |manager.s.tokens|
      && manager.s.tokens[id].result == accessResult && manager.s.tokens[id].volume == currentVolumeId
      && (accessSuccess <==> manager.s.tokens[id].stage != Denied)
    }

    constructor (manager: SDCardAccessManager, opens: bool, selects: bool, junk: VolumeId)
      requires manager.Valid()
      modifies manager
      ensures this.manager == manager && Valid()
      ensures manager.s == Step(old(manager.s), Create(opens, selects, junk))
      ensures manager.run == old(manager.run) + [Create(opens, selects, junk)]
      ensures id == |old(manager.s).tokens| && manager.s.tokens[id].stage == if accessSuccess then Granted else Denied
    {
      hide SDCardAccessManager.Reached, Counter, Step, DoCreate, ResultOf;
      this.manager := manager;
      accessSuccess, accessResult, currentVolumeId := false, RETURN_OK, junk;
      id := |manager.s.tokens|;
      new;
      ghost var s := manager.s;
      CreateFacts(s, opens, selects, junk);
      if manager.changingSdCard == true {
        accessResult := SD_CARD_CHANGE_ONGOING;
      } else {
        Grant(opens, selects);
      }
      manager.Did(Create(opens, selects, junk));
    }

    /** The constructor's body, when no change is going on. */
    method Grant(opens: bool, selects: bool)
      requires accessResult == RETURN_OK
      modifies this`currentVolumeId, this`accessResult, this`accessSuccess, manager`activeAccesses
      ensures currentVolumeId == manager.activeSdCard && accessSuccess
      ensures accessResult ==
        if (old(manager.activeAccesses) == 0 && !opens) || !selects then RETURN_FAILED else RETURN_OK
      ensures manager.activeAccesses == Counter(old(manager.activeAccesses) + 1)
    {
      currentVolumeId := manager.activeSdCard;
      if manager.activeAccesses == 0 {
        if !opens {
          accessResult := RETURN_FAILED;
        }
      }
      manager.activeAccesses := Counter(manager.activeAccesses + 1);
      if !selects {
        accessResult := RETURN_FAILED;
      }
      accessSuccess := true;
    }

    /** The destructor before it takes the mutex: it leaves the file system as one of its users. */
    method ReleaseFileSystem()
      requires Valid() && (accessSuccess ==> manager.s.tokens[id].stage == Granted)
      modifies manager
      ensures Valid()
      ensures if accessSuccess then manager.s == Step(old(manager.s), Release(id)) else manager.s == old(manager.s)
    {
      if !accessSuccess {
        return;
      }
      manager.Did(Release(id));
    }

    /** The rest of the destructor; whether it closes the file system. */
    method GiveBack() returns (closes: bool)
      requires Valid() && (accessSuccess ==> manager.s.tokens[id].stage == Released)
      modifies manager
      ensures Valid()
      ensures if accessSuccess then manager.s == Step(old(manager.s), Drop(id)) else manager.s == old(manager.s)
      ensures manager.s.calls == old(manager.s).calls + if closes then [Close] else []
      ensures manager.s.peak < COUNTER_SIZE ==> (closes <==> accessSuccess && Live(manager.s.tokens) == 0)
    {
      hide SDCardAccessManager.Reached, Inv, Counter, Live;
      closes := false;
      if !accessSuccess {
        return;
      }
      manager.ReachedIsSound();
      DropFacts(manager.s, id);
      manager.activeAccesses := Counter(manager.activeAccesses + COUNTER_SIZE - 1);
      if manager.activeAccesses == 0 {
        closes := true;
      }
      manager.Did(Drop(id));
    }
  }
}
