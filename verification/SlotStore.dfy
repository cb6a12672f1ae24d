/** The shared sidecar store of the image slots (design/image-slot.js, `load`, `save`,
  `flushNow`, `setSlot` and `getSlot`). */
module SlotStore {
  import opened Common

  type Id = string

  /** A stored value: the bare data URL older sidecars hold, a framing with an image URL ("" for
      none), or something falsy. */
  datatype Value = Text(url: string) | View(u: string, s: real, x: real, y: real) | Falsy

  type Slots = map<Id, Value>

  predicate Truthy(v: Value) {
    v.View? || (v.Text? && v.url != "")
  }

  /** What the read of the sidecar came to. */
  datatype Fetched = Sidecar(slots: Slots) | NoSidecar | FetchFailed

  /** Everything that can happen to the store.  `writer` says whether the host has a write
      function at that moment. */
  datatype Event =
    | StartLoad
    | Set(id: Id, val: Value, writer: bool)
    | Clear(id: Id, writer: bool)
    | Hydrated(fetched: Fetched)
    | SavePending(writer: bool)     // a save queued behind the load runs
    | WriteDone(writer: bool)       // the save in flight completed, well or not
    | Flush(writer: bool)           // the document unloads

  /** `pending` counts the saves queued behind the load, `writes` lists what the saves sent,
      `done` counts completions, and `missed` says that the last save found no writer. */
  datatype Store = Store(slots: Slots, tombstones: set<Id>, loading: bool, loaded: bool, pending: nat,
                         saving: bool, dirty: bool, writes: seq<Slots>, done: nat, missed: bool,
                         flushes: seq<Slots>)

  const EMPTY := Store(map[], {}, false, false, 0, false, false, [], 0, false, [])

  // ---------------------------------------------------------------- the steps

  function Saved(s: Store, writer: bool): Store {
    if s.saving then s.(dirty := true)
    else if !writer then s.(missed := true)
    else s.(saving := true, writes := s.writes + [s.slots], missed := false)
  }

  /** After a change: save now, or behind the load. */
  function Changed(s: Store, writer: bool): Store {
    if s.loaded then Saved(s, writer) else s.(loading := true, pending := s.pending + 1)
  }

  /** A local framing without an image takes the image the sidecar has for it. */
  function Inherit(local: Value, disk: Value): Value {
    if local.View? && local.u == "" && Truthy(disk)
    then local.(u := if disk.Text? then disk.url else disk.u)
    else local
  }

  function Merged(disk: Slots, local: Slots, tombstones: set<Id>): Slots {
    map id | id in disk.Keys + local.Keys && id !in tombstones ::
      if id !in local then disk[id]
      else if id in disk then Inherit(local[id], disk[id])
      else local[id]
  }

  function Hydrate(s: Store, fetched: Fetched): Store {
    match fetched
    case Sidecar(disk) => s.(slots := Merged(disk, s.slots, s.tombstones), tombstones := {}, loaded := true)
    case NoSidecar => s.(tombstones := {}, loaded := true)
    case FetchFailed => s.(loaded := true)
  }

  /** Local values are framings; the empty id and events that cannot happen now change nothing. */
  function Step(s: Store, e: Event): Store {
    match e
    case StartLoad => s.(loading := true)
    case Set(id, val, writer) =>
      if id == "" || !val.View? then s
      else Changed(s.(slots := s.slots[id := val], tombstones := s.tombstones - {id}), writer)
    case Clear(id, writer) =>
      if id == "" then s
      else Changed(s.(slots := s.slots - {id}, tombstones := if s.loaded then s.tombstones else s.tombstones + {id}), writer)
    case Hydrated(fetched) => if s.loading && !s.loaded then Hydrate(s, fetched) else s
    case SavePending(writer) =>
      if s.loaded && s.pending > 0 then Saved(s.(pending := s.pending - 1), writer) else s
    case WriteDone(writer) =>
      if !s.saving then s
      else
        var t := s.(saving := false, done := s.done + 1);
        if t.dirty then Saved(t.(dirty := false), writer) else t
    case Flush(writer) => if s.loaded && writer then s.(flushes := s.flushes + [s.slots]) else s
  }

  function Run(events: seq<Event>): Store {
    if events == [] then EMPTY else Step(Run(events[..|events| - 1]), events[|events| - 1])
  }

  // ---------------------------------------------------------------- the module variables

  class SidecarStore {
    var slots: Slots
    var tombstones: set<Id>
    var loading: bool
    var loaded: bool
    var pending: nat
    var saving: bool
    var dirty: bool
    var writes: seq<Slots>
    var done: nat
    var missed: bool
    var flushes: seq<Slots>

    function State(): Store
      reads this
    {
      Store(slots, tombstones, loading, loaded, pending, saving, dirty, writes, done, missed, flushes)
    }

    constructor ()
      ensures State() == EMPTY
    {
      slots, tombstones, loading, loaded, pending := map[], {}, false, false, 0;
      saving, dirty, writes, done, missed, flushes := false, false, [], 0, false, [];
    }

    method Load()
      modifies this
      ensures State() == Step(old(State()), StartLoad)
    {
      loading := true;
    }

    method Save(writer: bool)
      modifies this
      ensures State() == Saved(old(State()), writer)
    {
      if saving {
        dirty := true;
        return;
      }
      if !writer {
        missed := true;
        return;
      }
      saving := true;
      writes := writes + [slots];
      missed := false;
    }

    method SetSlot(id: Id, val: Option<Value>, writer: bool)
      requires val.Some? ==> val.value.View?
      modifies this
      ensures State() == Step(old(State()), if val.Some? then Set(id, val.value, writer) else Clear(id, writer))
    {
      if id == "" {
        return;
      }
      if val.Some? {
        slots := slots[id := val.value];
        tombstones := tombstones - {id};
      } else {
        slots := slots - {id};
        if !loaded {
          tombstones := tombstones + {id};
        }
      }
      if loaded {
        Save(writer);
      } else {
        Load();
        pending := pending + 1;
      }
    }

    /** The three callbacks of the load: merge, give up on a failed read, and announce. */
    method Settle(fetched: Fetched)
      requires loading && !loaded
      modifies this
      ensures State() == Step(old(State()), Hydrated(fetched))
    {
      if fetched.Sidecar? {
        var merged := fetched.slots + slots;
        var keys := slots.Keys;
        ghost var all := keys;
        while keys != {}
          invariant keys <= all == slots.Keys
          invariant merged.Keys == fetched.slots.Keys + slots.Keys
          invariant forall k :: k in merged ==>
            (merged[k] == if k !in slots then fetched.slots[k]
                          else if k in fetched.slots && k !in keys then Inherit(slots[k], fetched.slots[k])
                          else slots[k])
          invariant State() == old(State())
          decreases keys
        {
          var k :| k in keys;
          keys := keys - {k};
          if merged[k].View? && merged[k].u == "" && k in fetched.slots && Truthy(fetched.slots[k]) {
            merged := merged[k := Inherit(merged[k], fetched.slots[k])];
          }
        }
        slots := merged - tombstones;
        assert slots == Merged(fetched.slots, old(slots), tombstones);
      }
      if !fetched.FetchFailed? {
        tombstones := {};
      }
      loaded := true;
    }

    method RunPendingSave(writer: bool)
      requires loaded && pending > 0
      modifies this
      ensures State() == Step(old(State()), SavePending(writer))
    {
      pending := pending - 1;
      Save(writer);
    }

    method CompleteWrite(writer: bool)
      requires saving
      modifies this
      ensures State() == Step(old(State()), WriteDone(writer))
    {
      saving := false;
      done := done + 1;
      if dirty {
        dirty := false;
        Save(writer);
      }
    }

    method FlushNow(writer: bool)
      modifies this
      ensures State() == Step(old(State()), Flush(writer))
    {
      if !loaded || !writer {
        return;
      }
      flushes := flushes + [slots];
    }

    method GetSlot(id: Id) returns (v: Option<Value>)
      ensures v == if id in slots && Truthy(slots[id])
                   then Some(if slots[id].Text? then View(slots[id].url, 1.0, 0.0, 0.0) else slots[id]) else None
    {
      if id !in slots || !Truthy(slots[id]) {
        return None;
      }
      if slots[id].Text? {
        return Some(View(slots[id].url, 1.0, 0.0, 0.0));
      }
      return Some(slots[id]);
    }
  }

  // ---------------------------------------------------------------- serialised writes

  predicate WriterOf(e: Event) {
    match e
    case Set(_, _, w) => w
    case Clear(_, w) => w
    case SavePending(w) => w
    case WriteDone(w) => w
    case Flush(w) => w
    case _ => true
  }

  predicate Changes(e: Event) {
    (e.Set? && e.id != "" && e.val.View?) || (e.Clear? && e.id != "")
  }

  predicate Touched(events: seq<Event>) {
    exists i :: 0 <= i < |events| && Changes(events[i])
  }

  predicate WriterAlways(events: seq<Event>) {
    forall i :: 0 <= i < |events| ==> WriterOf(events[i])
  }

  ghost predicate Inv(s: Store) {
    // one save in flight, exactly while `saving`
    && |s.writes| == s.done + (if s.saving then 1 else 0)
    && (s.dirty ==> s.saving)
    // nothing is written before the sidecar has been read
    && (s.writes != [] || s.saving || s.missed ==> s.loaded)
    // the last save sent the current slots, or another is due
    && (s.writes != [] ==> s.writes[|s.writes| - 1] == s.slots || s.dirty || s.missed)
    && (s.pending > 0 ==> s.loading)
  }

  lemma StepInv(s: Store, e: Event)
    requires Inv(s)
    ensures Inv(Step(s, e))
    ensures !s.missed && WriterOf(e) ==> !Step(s, e).missed
    ensures Changes(e) ==> var t := Step(s, e); t.pending > 0 || t.writes != [] || t.missed
    ensures s.pending > 0 || s.writes != [] || s.missed ==>
      var t := Step(s, e); t.pending > 0 || t.writes != [] || t.missed
  {
    hide Merged;
  }

  lemma EmptyInv()
    ensures Inv(EMPTY)
  {
  }

  lemma {:induction false} RunInv(events: seq<Event>)
    ensures Inv(Run(events))
    ensures WriterAlways(events) ==> !Run(events).missed
    ensures Touched(events) ==> var s := Run(events); s.pending > 0 || s.writes != [] || s.missed
  {
    hide Step, Inv, Changes, WriterOf;
    if events == [] {
      EmptyInv();
    } else {
      var n := |events| - 1;
      RunInv(events[..n]);
      StepInv(Run(events[..n]), events[n]);
      assert forall i :: 0 <= i < n ==> events[..n][i] == events[i];
      if Touched(events) && !Changes(events[n]) {
        var i :| 0 <= i < |events| && Changes(events[i]);
        assert Changes(events[..n][i]);
      }
    }
  }

  /** At most one save is in flight, whatever happens in whatever order. */
  lemma OneWriteInFlight(events: seq<Event>)
    ensures var s := Run(events); s.done <= |s.writes| <= s.done + 1
    ensures var s := Run(events); s.writes != [] ==> s.loaded
  {
    RunInv(events);
  }

  /** As long as no save has been missed for want of a writer, and so always while the host can
      write: when the store is idle and not dirty, the last save sent exactly the current slots;
      and once the load's queue has drained, every change has been sent. */
  lemma IdleMeansSaved(events: seq<Event>)
    requires WriterAlways(events) || !Run(events).missed
    ensures var s := Run(events);
      !s.saving && !s.dirty && s.writes != [] ==> s.writes[|s.writes| - 1] == s.slots
    ensures var s := Run(events);
      !s.saving && !s.dirty && s.pending == 0 && Touched(events) ==>
        s.loaded && s.writes != [] && s.writes[|s.writes| - 1] == s.slots
  {
    RunInv(events);
  }

  // ---------------------------------------------------------------- exactly when the sidecar is right

  /** If nothing is being written or due and something has been, it was the current slots. */
  predicate UpToDate(s: Store) {
    !s.saving && !s.dirty && s.writes != [] ==> s.writes[|s.writes| - 1] == s.slots
  }

  /** Every moment of the run is up to date. */
  ghost predicate AlwaysUpToDate(events: seq<Event>) {
    forall k :: 0 <= k <= |events| ==> UpToDate(Run(events[..k]))
  }

  /** The event asks for a save while none is in flight, and there is no writer. */
  predicate MissesWriter(s: Store, e: Event) {
    !WriterOf(e) &&
    match e
    case Set(_, _, _) => Changes(e) && s.loaded && !s.saving
    case Clear(_, _) => Changes(e) && s.loaded && !s.saving
    case SavePending(_) => s.loaded && s.pending > 0 && !s.saving
    case WriteDone(_) => s.saving && s.dirty
    case _ => false
  }

  /** If the event misses its writer, the last save had sent what the slots are now. */
  predicate Harmless(s: Store, e: Event) {
    MissesWriter(s, e) && s.writes != [] ==> s.writes[|s.writes| - 1] == Step(s, e).slots
  }

  ghost predicate AllHarmless(events: seq<Event>) {
    forall k :: 0 <= k < |events| ==> Harmless(Run(events[..k]), events[k])
  }

  /** The last save sent the current slots, or another is due. */
  predicate SentOrDue(s: Store) {
    s.writes != [] ==> s.writes[|s.writes| - 1] == s.slots || s.dirty
  }

  lemma MissLeavesIdle(s: Store, e: Event)
    requires Inv(s) && MissesWriter(s, e)
    ensures var t := Step(s, e); !t.saving && !t.dirty && t.writes == s.writes
  {
    hide Merged, Hydrate;
  }

  lemma HarmlessKeepsSent(s: Store, e: Event)
    requires Inv(s) && SentOrDue(s) && Harmless(s, e)
    ensures SentOrDue(Step(s, e))
  {
    hide Merged;
  }

  lemma {:induction false} HarmlessMeansSent(events: seq<Event>)
    requires AllHarmless(events)
    ensures SentOrDue(Run(events))
  {
    hide Step, Inv, Harmless, SentOrDue;
    if events == [] {
      NothingSent();
    } else {
      var n := |events| - 1;
      var init := events[..n];
      forall k | 0 <= k < n ensures Harmless(Run(init[..k]), init[k]) { assert init[..k] == events[..k]; }
      HarmlessMeansSent(init);
      RunInv(init);
      HarmlessKeepsSent(Run(init), events[n]);
    }
  }

  lemma NothingSent()
    ensures SentOrDue(EMPTY)
  {
  }

  /** A run is up to date at every moment if and only if no save that missed its writer left the
      slots other than they were last sent. */
  lemma ExactlyUpToDate(events: seq<Event>)
    ensures AlwaysUpToDate(events) <==> AllHarmless(events)
  {
    hide Step, Inv, MissesWriter, Run;
    if AlwaysUpToDate(events) {
      forall k | 0 <= k < |events| ensures Harmless(Run(events[..k]), events[k]) {
        var s := Run(events[..k]);
        RunInv(events[..k]);
        if MissesWriter(s, events[k]) {
          MissLeavesIdle(s, events[k]);
          assert events[..k + 1] == events[..k] + [events[k]];
          RunSnoc(events[..k], events[k]);
          assert UpToDate(Run(events[..k + 1]));
        }
      }
    }
    if AllHarmless(events) {
      forall k | 0 <= k <= |events| ensures UpToDate(Run(events[..k])) {
        forall i | 0 <= i < k ensures Harmless(Run(events[..k][..i]), events[..k][i]) {
          assert events[..k][..i] == events[..i];
        }
        HarmlessMeansSent(events[..k]);
      }
    }
  }

  /** So a host that can always write is always up to date. */
  lemma WriterMeansUpToDate(events: seq<Event>)
    requires WriterAlways(events)
    ensures AlwaysUpToDate(events)
  {
    hide AlwaysUpToDate, Step;
    ExactlyUpToDate(events);
  }

  /** Without that proviso it fails: a save that finds no writer is not retried. */
  lemma MissedSaveIsLost()
    ensures exists events :: var s := Run(events);
      s.loaded && s.writes != [] && !s.saving && !s.dirty && s.writes[|s.writes| - 1] != s.slots
  {
    hide Run, Step;
    var v := View("", 1.0, 0.0, 0.0);
    var e0, e1, e2, e3, e4 := StartLoad, Hydrated(NoSidecar), Set("a", v, true), WriteDone(true), Clear("a", false);
    RunNothing();
    RunSnoc([], e0);
    RunSnoc([e0], e1);
    RunSnoc([e0, e1], e2);
    RunSnoc([e0, e1, e2], e3);
    RunSnoc([e0, e1, e2, e3], e4);
    assert [] + [e0] == [e0] && [e0] + [e1] == [e0, e1] && [e0, e1] + [e2] == [e0, e1, e2]
      && [e0, e1, e2] + [e3] == [e0, e1, e2, e3] && [e0, e1, e2, e3] + [e4] == [e0, e1, e2, e3, e4];
    LoadThenSetThenClear(v);
    var s := Run([e0, e1, e2, e3, e4]);
    assert "a" in s.writes[0] && "a" !in s.slots;
  }

  lemma LoadThenSetThenClear(v: Value)
    requires v.View?
    ensures var start := Step(Step(EMPTY, StartLoad), Hydrated(NoSidecar));
      var saved := Step(Step(start, Set("a", v, true)), WriteDone(true));
      var s := Step(saved, Clear("a", false));
      && s.loaded && s.writes == [map["a" := v]] && !s.saving && !s.dirty && s.slots == map[]
  {
    var start := Step(Step(EMPTY, StartLoad), Hydrated(NoSidecar));
    assert start == EMPTY.(loading := true, loaded := true);
    var saved := Step(Step(start, Set("a", v, true)), WriteDone(true));
    assert saved.slots == map["a" := v] && saved.writes == [saved.slots];
  }

  lemma RunNothing()
    ensures Run([]) == EMPTY
  {
  }

  lemma RunSnoc(events: seq<Event>, e: Event)
    ensures Run(events + [e]) == Step(Run(events), e)
  {
    assert (events + [e])[..|events|] == events;
  }

  // ---------------------------------------------------------------- what a slot holds

  /** What the page last said about an id. */
  datatype Word = Silent | Said(val: Value) | Cleared

  function LastWord(events: seq<Event>, id: Id): Word {
    if events == [] || id == "" then Silent
    else
      match events[|events| - 1]
      case Set(k, val, _) => if k == id && val.View? then Said(val) else LastWord(events[..|events| - 1], id)
      case Clear(k, _) => if k == id then Cleared else LastWord(events[..|events| - 1], id)
      case _ => LastWord(events[..|events| - 1], id)
  }

  function ValueOf(slots: Slots, id: Id): Option<Value> {
    if id in slots then Some(slots[id]) else None
  }

  /** What one event says about an id. */
  function WordOf(e: Event, id: Id): Word {
    match e
    case Set(k, val, _) => if k == id && id != "" && val.View? then Said(val) else Silent
    case Clear(k, _) => if k == id && id != "" then Cleared else Silent
    case _ => Silent
  }

  lemma LastWordSnoc(events: seq<Event>, e: Event, id: Id)
    ensures LastWord(events + [e], id) == if WordOf(e, id) == Silent then LastWord(events, id) else WordOf(e, id)
  {
    assert (events + [e])[..|events|] == events;
  }

  /** How one event that does not hydrate changes what is known of an id. */
  lemma StepWord(s: Store, e: Event, id: Id)
    requires !e.Hydrated? || s.loaded || !s.loading
    ensures var t, word := Step(s, e), WordOf(e, id);
      && t.loaded == s.loaded
      && ValueOf(t.slots, id) == (match word
           case Said(val) => Some(val)
           case Cleared => None
           case Silent => ValueOf(s.slots, id))
      && (!s.loaded ==> (id in t.tombstones <==> word.Cleared? || (word.Silent? && id in s.tombstones)))
  {
    hide Saved, Changed, Hydrate;
    match e {
      case Set(k, val, writer) =>
        if k != "" && val.View? { SetWord(s, k, val, writer, id); }
      case Clear(k, writer) =>
        if k != "" { ClearWord(s, k, writer, id); }
      case SavePending(writer) =>
        if s.pending > 0 { ChangedKeeps(s.(pending := s.pending - 1), writer); }
      case WriteDone(writer) =>
        ChangedKeeps(s.(saving := false, done := s.done + 1, dirty := false), writer);
      case _ =>
    }
  }

  lemma SetWord(s: Store, k: Id, val: Value, writer: bool, id: Id)
    requires k != "" && val.View?
    ensures var t := Step(s, Set(k, val, writer));
      && t.loaded == s.loaded
      && ValueOf(t.slots, id) == (if k == id then Some(val) else ValueOf(s.slots, id))
      && (id in t.tombstones <==> k != id && id in s.tombstones)
  {
    hide Saved, Changed;
    ChangedKeeps(s.(slots := s.slots[k := val], tombstones := s.tombstones - {k}), writer);
  }

  lemma ClearWord(s: Store, k: Id, writer: bool, id: Id)
    requires k != ""
    ensures var t := Step(s, Clear(k, writer));
      && t.loaded == s.loaded
      && ValueOf(t.slots, id) == (if k == id then None else ValueOf(s.slots, id))
      && (!s.loaded ==> (id in t.tombstones <==> k == id || id in s.tombstones))
  {
    hide Saved, Changed;
    ChangedKeeps(s.(slots := s.slots - {k}, tombstones := if s.loaded then s.tombstones else s.tombstones + {k}), writer);
  }

  /** Saving leaves the slots, the tombstones and the hydration alone. */
  lemma ChangedKeeps(s: Store, writer: bool)
    ensures var t := Saved(s, writer);
      t.slots == s.slots && t.tombstones == s.tombstones && t.loaded == s.loaded
    ensures var t := Changed(s, writer);
      t.slots == s.slots && t.tombstones == s.tombstones && t.loaded == s.loaded
  {
  }

  lemma {:induction false} BeforeHydration(events: seq<Event>, id: Id)
    requires !Run(events).loaded
    ensures var s, word := Run(events), LastWord(events, id);
      && ValueOf(s.slots, id) == (if word.Said? then Some(word.val) else None)
      && (id in s.tombstones <==> word.Cleared?)
  {
    hide Step, WordOf;
    if events != [] {
      var init, e := events[..|events| - 1], events[|events| - 1];
      assert events == init + [e];
      RunSnoc(init, e);
      StaysLoaded(Run(init), e);
      BeforeHydration(init, id);
      LastWordSnoc(init, e, id);
      StepWord(Run(init), e, id);
    }
  }

  lemma StaysLoaded(s: Store, e: Event)
    ensures s.loaded ==> Step(s, e).loaded
    ensures e.Hydrated? && s.loading ==> Step(s, e).loaded
  {
  }

  /** After a successful read of the sidecar, whatever was set and cleared while it was under way:
      an id holds its last local value, with the sidecar's image if it has none of its own; it
      is absent if it was last cleared; otherwise it has the sidecar's value. */
  lemma HydrationMerges(events: seq<Event>, disk: Slots, id: Id)
    requires Run(events).loading && !Run(events).loaded
    ensures var s, word := Run(events + [Hydrated(Sidecar(disk))]), LastWord(events, id);
      ValueOf(s.slots, id) ==
        match word
        case Said(val) => Some(if id in disk then Inherit(val, disk[id]) else val)
        case Cleared => None
        case Silent => ValueOf(disk, id)
  {
    BeforeHydration(events, id);
    RunSnoc(events, Hydrated(Sidecar(disk)));
  }

  /** Once loaded, a later word replaces what hydration left and silence keeps it. */
  lemma {:induction false} AfterHydration(events: seq<Event>, more: seq<Event>, id: Id)
    requires Run(events).loaded
    ensures Run(events + more).loaded
    ensures var was, now, word := Run(events), Run(events + more), LastWord(more, id);
      ValueOf(now.slots, id) ==
        match word
        case Said(val) => Some(val)
        case Cleared => None
        case Silent => ValueOf(was.slots, id)
  {
    hide Step, WordOf;
    if more == [] {
      assert events + more == events;
    } else {
      var init, e := more[..|more| - 1], more[|more| - 1];
      assert more == init + [e] && events + more == (events + init) + [e];
      AfterHydration(events, init, id);
      RunSnoc(events + init, e);
      LastWordSnoc(init, e, id);
      StepWord(Run(events + init), e, id);
    }
  }

  lemma {:induction false} SaidIsView(events: seq<Event>, id: Id)
    ensures LastWord(events, id).Said? ==> LastWord(events, id).val.View?
  {
    if events != [] && id != "" { SaidIsView(events[..|events| - 1], id); }
  }

  /** Hydration leaves the page's own framing alone: what was last said about an id keeps its scale
      and its offsets, and its image too, unless it has none and the sidecar has one. */
  lemma HydrationKeepsFraming(events: seq<Event>, disk: Slots, id: Id)
    requires Run(events).loading && !Run(events).loaded && LastWord(events, id).Said?
    ensures var s, own := Run(events + [Hydrated(Sidecar(disk))]), LastWord(events, id).val;
      && own.View? && id in s.slots && s.slots[id].View?
      && s.slots[id].s == own.s && s.slots[id].x == own.x && s.slots[id].y == own.y
      && s.slots[id].u == (
           if own.u != "" || id !in disk || disk[id] == Falsy || disk[id] == Text("") then own.u
           else match disk[id] case Text(url) => url case View(u, _, _, _) => u)
  {
    hide Run, LastWord;
    SaidIsView(events, id);
    HydrationMerges(events, disk, id);
  }

  /** Without a sidecar, or when it cannot be read, the page's own words are what is held. */
  lemma HydrationWithout(events: seq<Event>, fetched: Fetched, id: Id)
    requires Run(events).loading && !Run(events).loaded && !fetched.Sidecar?
    ensures var s, word := Run(events + [Hydrated(fetched)]), LastWord(events, id);
      s.loaded && ValueOf(s.slots, id) == if word.Said? then Some(word.val) else None
  {
    hide Run, LastWord;
    RunSnoc(events, Hydrated(fetched));
    BeforeHydration(events, id);
  }

  /** At every moment of every run: an unload of a loaded store that finds a writer sends the slots of
      that moment and changes nothing else, and nothing else sends one. */
  lemma FlushSends(events: seq<Event>, k: nat)
    requires k < |events|
    ensures var s, t := Run(events[..k]), Run(events[..k + 1]);
      && t.flushes == (if events[k] == Flush(true) && s.loaded then s.flushes + [s.slots] else s.flushes)
      && (events[k].Flush? ==> t == s.(flushes := t.flushes))
  {
    hide Step;
    assert events[..k + 1] == events[..k] + [events[k]];
    RunSnoc(events[..k], events[k]);
    FlushStep(Run(events[..k]), events[k]);
  }

  lemma FlushStep(s: Store, e: Event)
    ensures Step(s, e).flushes == if e == Flush(true) && s.loaded then s.flushes + [s.slots] else s.flushes
    ensures e.Flush? ==> Step(s, e) == s.(flushes := Step(s, e).flushes)
  {
    hide Merged;
  }
}
