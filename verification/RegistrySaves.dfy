/**
 The saves of changes that are made at the same time (src/vips.rs): a change,
 the collecting of what is to be saved, the writing of the temporary file and
 its renaming are four steps, with no one lock over them, and all changes share
 one temporary file. This module says which map is on disk after any
 interleaving.
 */
module RegistrySaves {
  import opened Bytes
  import opened Registry

  type Specs = map<Name, VipSpec>

  /** The steps of change number `id`: applied (or removed), collected, written, renamed. */
  datatype Event =
    | Change(id: nat, name: Name, spec: Option<VipSpec>)
    | Collect(id: nat)
    | WriteTmp(id: nat)
    | Rename(id: nat)

  /** `taken` is what each change collected, `tmp` what the temporary file holds, if it is there. */
  datatype Disk = Disk(want: Specs, taken: map<nat, Specs>, tmp: Option<Specs>, file: Specs)

  function Changed(want: Specs, name: Name, spec: Option<VipSpec>): Specs {
    if spec.Some? then want[name := spec.value] else want - {name}
  }

  /** One step. A step whose predecessor is missing does nothing, as a rename does without a temporary file. */
  function Step(d: Disk, e: Event): Disk {
    match e
    case Change(_, name, spec) => d.(want := Changed(d.want, name, spec))
    case Collect(id) => d.(taken := d.taken[id := d.want])
    case WriteTmp(id) => if id in d.taken then d.(tmp := Some(d.taken[id])) else d
    case Rename(_) => if d.tmp.Some? then d.(file := d.tmp.value, tmp := None) else d
  }

  function Steps(d: Disk, events: seq<Event>): Disk {
    if |events| == 0 then d else Step(Steps(d, events[..|events| - 1]), events[|events| - 1])
  }

  /** Where nothing is being saved. */
  predicate AtRest(d: Disk) {
    d.taken == map[] && d.tmp == None
  }

  // ----- whose view is on disk -----------------------------------------------------

  /** The event at which change `id` last collected. */
  function Collected(events: seq<Event>, id: nat): (c: Option<nat>)
    ensures c.Some? ==> c.value < |events| && events[c.value] == Collect(id)
  {
    if |events| == 0 then None
    else if events[|events| - 1] == Collect(id) then Some(|events| - 1)
    else Collected(events[..|events| - 1], id)
  }

  /** The event at which what the temporary file holds was collected. */
  function TmpFrom(events: seq<Event>): (c: Option<nat>)
    ensures c.Some? ==> c.value < |events| && events[c.value].Collect?
  {
    if |events| == 0 then None else
    var init, last := events[..|events| - 1], events[|events| - 1];
    match last
    case WriteTmp(id) => if Collected(init, id).Some? then Collected(init, id) else TmpFrom(init)
    case Rename(_) => None
    case _ => TmpFrom(init)
  }

  /** The event at which what the file holds was collected. */
  function FileFrom(events: seq<Event>): (c: Option<nat>)
    ensures c.Some? ==> c.value < |events| && events[c.value].Collect?
  {
    if |events| == 0 then None else
    var init, last := events[..|events| - 1], events[|events| - 1];
    if last.Rename? && TmpFrom(init).Some? then TmpFrom(init) else FileFrom(init)
  }

  /** What the map was at event `c`. */
  function WantAt(d: Disk, events: seq<Event>, c: nat): Specs
    requires c <= |events|
  {
    Steps(d, events[..c]).want
  }

  lemma WantAtPrefix(d: Disk, events: seq<Event>, c: nat)
    requires c < |events|
    ensures WantAt(d, events[..|events| - 1], c) == WantAt(d, events, c)
  {
    assert events[..|events| - 1][..c] == events[..c];
  }

  lemma {:induction false} TakenIsView(d: Disk, events: seq<Event>, id: nat)
    requires AtRest(d)
    ensures id in Steps(d, events).taken <==> Collected(events, id).Some?
    ensures id in Steps(d, events).taken ==> Steps(d, events).taken[id] == WantAt(d, events, Collected(events, id).value)
  {
    if |events| > 0 {
      var init := events[..|events| - 1];
      TakenIsView(d, init, id);
      if Collected(init, id).Some? {
        WantAtPrefix(d, events, Collected(init, id).value);
      }
    }
  }

  lemma {:induction false} TmpIsView(d: Disk, events: seq<Event>)
    requires AtRest(d)
    ensures Steps(d, events).tmp == if TmpFrom(events).Some? then Some(WantAt(d, events, TmpFrom(events).value)) else None
  {
    if |events| > 0 {
      var init, last := events[..|events| - 1], events[|events| - 1];
      TmpIsView(d, init);
      if TmpFrom(init).Some? {
        WantAtPrefix(d, events, TmpFrom(init).value);
      }
      if last.WriteTmp? {
        TakenIsView(d, init, last.id);
        if Collected(init, last.id).Some? {
          WantAtPrefix(d, events, Collected(init, last.id).value);
        }
      }
    }
  }

  /**
   After any interleaving of any number of changes the file holds the map as it
   was when the text last renamed into place was collected, whatever was
   changed since; as before, if nothing was renamed.
   */
  lemma {:induction false} FileIsView(d: Disk, events: seq<Event>)
    requires AtRest(d)
    ensures Steps(d, events).file == if FileFrom(events).Some? then WantAt(d, events, FileFrom(events).value) else d.file
  {
    if |events| > 0 {
      var init := events[..|events| - 1];
      FileIsView(d, init);
      TmpIsView(d, init);
      if TmpFrom(init).Some? {
        WantAtPrefix(d, events, TmpFrom(init).value);
      }
      if FileFrom(init).Some? {
        WantAtPrefix(d, events, FileFrom(init).value);
      }
    }
  }

  /** If nothing was changed after that collecting, the file is up to date. */
  lemma UpToDate(d: Disk, events: seq<Event>)
    requires AtRest(d) && FileFrom(events).Some?
    requires forall k :: FileFrom(events).value < k < |events| ==> !events[k].Change?
    ensures Steps(d, events).file == Steps(d, events).want
  {
    FileIsView(d, events);
    Unchanged(d, events, FileFrom(events).value);
  }

  lemma {:induction false} Unchanged(d: Disk, events: seq<Event>, c: nat)
    requires c < |events| && forall k :: c <= k < |events| ==> !events[k].Change?
    ensures WantAt(d, events, c) == Steps(d, events).want
  {
    var init := events[..|events| - 1];
    if c == |events| - 1 {
      assert events[..c] == init;
    } else {
      assert forall k :: c <= k < |init| ==> init[k] == events[k];
      Unchanged(d, init, c);
      WantAtPrefix(d, events, c);
    }
  }

  /** Two applies: the first collects before the second is applied, and is written after it. */
  function Crossed(first: Name, s: VipSpec, second: Name, s': VipSpec): seq<Event> {
    [Change(1, first, Some(s)), Collect(1), Change(2, second, Some(s')), Collect(2),
     WriteTmp(2), Rename(2), WriteTmp(1), Rename(1)]
  }

  /**
   So the file can be left old for good: both of two applies took effect, both
   were renamed into place, and the file lacks the second.
   */
  lemma CrossedSavesLoseOne(d: Disk, first: Name, s: VipSpec, second: Name, s': VipSpec)
    requires AtRest(d) && first != second && second !in d.want
    ensures var d' := Steps(d, Crossed(first, s, second, s'));
      && d'.want == d.want[first := s][second := s']
      && d'.file == d.want[first := s] && second !in d'.file
  {
    var e := Crossed(first, s, second, s');
    StepsFrom(d, e, 0);
    StepsFrom(d, e, 1);
    StepsFrom(d, e, 2);
    StepsFrom(d, e, 3);
    StepsFrom(d, e, 4);
    StepsFrom(d, e, 5);
    StepsFrom(d, e, 6);
    StepsFrom(d, e, 7);
    assert e[..8] == e && e[..0] == [];
  }

  lemma StepsFrom(d: Disk, events: seq<Event>, k: nat)
    requires k < |events|
    ensures Steps(d, events[..k + 1]) == Step(Steps(d, events[..k]), events[k])
  {
    assert events[..k + 1][..k] == events[..k];
  }
}
