/** Object handles: absolute ones point into the host's object table, relative ones into the
    table of the contract frame they were handed to. */
module ObjectTables {
  import opened Wrappers
  import opened Arithmetic

  const HANDLES: nat := 0x1_0000_0000

  /** The kinds of host objects; a tag names a kind. */
  datatype Tag = VecTag | MapTag | U64Tag | I64Tag | TimepointTag | DurationTag | U128Tag | I128Tag | U256Tag | I256Tag
               | BytesTag | StringTag | SymbolTag | AddressTag

  datatype Val = Small(payload: int) | Object(handle: u32, tag: Tag)

  datatype HostObject = HostObject(kind: Tag, content: int)

  /** Only frames of contract code have a table. */
  datatype Frame = VmFrame(table: seq<Val>) | OtherFrame

  datatype State = State(objects: seq<HostObject>, frames: seq<Frame>)

  datatype Error = ArithOverflow | InvalidInput | InternalError

  // ---------- handles ----------

  predicate IsRelative(handle: u32) { handle % 2 == 0 }

  function HandleToIndex(handle: u32): nat { handle / 2 }

  /** The shift drops the highest bit: only its amount is checked. */
  function IndexToHandle(index: nat, relative: bool): Result<u32, Error> {
    if index > U32_MAX then Err(ArithOverflow)
    else Ok((2 * index) % HANDLES + if relative then 0 else 1)
  }

  /** A handle leads back to its index exactly for indices below two to the power of 31. */
  lemma HandleRoundTrip(index: nat, relative: bool)
    requires index <= U32_MAX
    ensures IndexToHandle(index, relative).Ok?
    ensures IsRelative(IndexToHandle(index, relative).value) == relative
    ensures HandleToIndex(IndexToHandle(index, relative).value) == index <==> index < 0x8000_0000
  {
  }

  /** Relative handles are the even ones. */
  lemma HandleParity(index: nat, relative: bool)
    requires index <= U32_MAX
    ensures IndexToHandle(index, relative).Ok? && (IndexToHandle(index, relative).value % 2 == 0 <==> relative)
    ensures index < 0x8000_0000 ==> IndexToHandle(index, relative).value / 2 == index
  {
  }

  /** Beyond that, two indices share a handle exactly when they are 2^31 apart. */
  lemma HandlesCollide(i: nat, j: nat, relative: bool)
    requires i < j <= U32_MAX
    ensures IndexToHandle(i, relative) == IndexToHandle(j, relative) <==> j == i + 0x8000_0000
    ensures IndexToHandle(0x8000_0000, relative) == IndexToHandle(0, relative)
  {
  }

  // ---------- translation ----------

  predicate InVm(s: State) {
    s.frames != [] && s.frames[|s.frames| - 1].VmFrame?
  }

  function Table(s: State): seq<Val>
    requires InVm(s)
  {
    s.frames[|s.frames| - 1].table
  }

  function ToAbsolute(s: State, v: Val): Result<Val, Error> {
    match v
    case Small(_) => Ok(v)
    case Object(handle, tag) =>
      if !IsRelative(handle) then Err(InvalidInput)
      else if !InVm(s) then Err(InternalError)
      else if HandleToIndex(handle) >= |Table(s)| then Err(InvalidInput)
      else
        var abs := Table(s)[HandleToIndex(handle)];
        if abs.Object? && abs.tag == tag then Ok(abs) else Err(InvalidInput)
  }

  function PushObject(s: State, v: Val): State
    requires InVm(s)
  {
    s.(frames := s.frames[|s.frames| - 1 := VmFrame(Table(s) + [v])])
  }

  function ToRelative(s: State, v: Val): (State, Result<Val, Error>) {
    match v
    case Small(_) => (s, Ok(v))
    case Object(handle, tag) =>
      if IsRelative(handle) || !InVm(s) then (s, Err(InternalError))
      else
        (PushObject(s, v),
         match IndexToHandle(|Table(s)|, true)
         case Err(e) => Err(e)
         case Ok(h) => Ok(Object(h, tag)))
  }

  function AddObject(s: State, o: HostObject): (State, Result<Val, Error>) {
    match IndexToHandle(|s.objects|, false)
    case Err(e) => (s, Err(e))
    case Ok(h) => (s.(objects := s.objects + [o]), Ok(Object(h, o.kind)))
  }

  function Visit(s: State, v: Val): Result<HostObject, Error>
    requires v.Object?
  {
    if IsRelative(v.handle) then Err(InternalError)
    else if HandleToIndex(v.handle) < |s.objects| then Ok(s.objects[HandleToIndex(v.handle)])
    else Err(InvalidInput)
  }

  // ---------- runs ----------

  datatype Event = Enter(frame: Frame) | Leave | Create(object: HostObject) | Export(val: Val)

  /** Frames start with an empty table. */
  function Step(s: State, e: Event): Option<State> {
    match e
    case Enter(frame) => Some(s.(frames := s.frames + [if frame.VmFrame? then VmFrame([]) else OtherFrame]))
    case Leave => if s.frames == [] then None else Some(s.(frames := s.frames[..|s.frames| - 1]))
    case Create(o) => Some(AddObject(s, o).0)
    case Export(v) => Some(ToRelative(s, v).0)
  }

  /** A run that does not leave the lowest `floor` frames. */
  function Run(s: State, events: seq<Event>, floor: nat): Option<State>
    decreases |events|
  {
    if events == [] then Some(s)
    else
      match Step(s, events[0])
      case None => None
      case Some(s1) => if |s1.frames| < floor then None else Run(s1, events[1..], floor)
  }

  predicate FrameGrows(f: Frame, g: Frame) {
    if f.VmFrame? then g.VmFrame? && f.table <= g.table else g == f
  }

  ghost predicate Grows(s: State, t: State, floor: nat)
    requires floor <= |s.frames|
  {
    && s.objects <= t.objects && floor <= |t.frames|
    && forall i :: 0 <= i < floor ==> FrameGrows(s.frames[i], t.frames[i])
  }

  lemma {:induction false} RunGrows(s: State, events: seq<Event>, floor: nat)
    requires floor <= |s.frames| && Run(s, events, floor).Some?
    ensures Grows(s, Run(s, events, floor).value, floor)
    decreases |events|
  {
    if events != [] {
      var s1 := Step(s, events[0]).value;
      RunGrows(s1, events[1..], floor);
      var t := Run(s1, events[1..], floor).value;
      forall i | 0 <= i < floor ensures FrameGrows(s.frames[i], t.frames[i]) {
        assert FrameGrows(s1.frames[i], t.frames[i]);
      }
    }
  }

  /** An exported object keeps its handle while its frame lasts, whatever happens in frames
      above, and nothing else in that frame is handed the same one. */
  lemma ExportIsStable(s: State, v: Val, events: seq<Event>, w: Val)
    requires InVm(s) && v.Object? && w.Object? && !IsRelative(v.handle) && !IsRelative(w.handle)
    requires |Table(s)| < 0x8000_0000
    requires var s1 := ToRelative(s, v).0;
             var t := Run(s1, events, |s.frames|);
             t.Some? && |t.value.frames| == |s.frames| && InVm(t.value) && |Table(t.value)| < 0x8000_0000
    ensures ToRelative(s, v).1.Ok?
    ensures var (s1, r) := ToRelative(s, v);
            var t := Run(s1, events, |s.frames|).value;
            && ToAbsolute(t, r.value) == Ok(v)
            && ToRelative(t, w).1.Ok? && ToRelative(t, w).1.value.handle != r.value.handle
  {
    var (s1, r) := ToRelative(s, v);
    RunGrows(s1, events, |s.frames|);
    var t := Run(s1, events, |s.frames|).value;
    var n := |s.frames| - 1;
    HandleRoundTrip(|Table(s)|, true);
    assert FrameGrows(s1.frames[n], t.frames[n]);
    assert Table(s1)[|Table(s)|] == v;
    HandleRoundTrip(|Table(t)|, true);
  }

  /** Contract code reaches the objects exported to its frame and no others: what it gets for a
      handle was exported as the entry the handle counts to, under the same tag; every exported
      object can be reached so; everything else is refused, and so is everything in a frame just
      entered, whatever it brings. */
  lemma OnlyExportedObjects(s: State, v: Val, t: seq<Val>)
    requires InVm(s) && v.Object?
    ensures ToAbsolute(s, v).Ok? ==> exists i :: 0 <= i < |Table(s)| && NamesEntry(s, v, i) && ToAbsolute(s, v) == Ok(Table(s)[i])
    ensures forall i :: 0 <= i < |Table(s)| && Table(s)[i].Object? && NamesEntry(s, v, i) ==> ToAbsolute(s, v) == Ok(Table(s)[i])
    ensures ToAbsolute(s, v).Err? ==> ToAbsolute(s, v).error == InvalidInput
    ensures ToAbsolute(Step(s, Enter(VmFrame(t))).value, v) == Err(InvalidInput)
  {
    assert Table(Step(s, Enter(VmFrame(t))).value) == [];
    if ToAbsolute(s, v).Ok? {
      assert NamesEntry(s, v, HandleToIndex(v.handle));
    }
  }

  predicate NamesEntry(s: State, v: Val, i: nat)
    requires InVm(s) && v.Object? && i < |Table(s)|
  {
    v.handle == 2 * i && Table(s)[i].Object? && Table(s)[i].tag == v.tag
  }

  /** Small values pass unchanged everywhere. An object is exported, and found in the object
      table, only under an absolute handle; outside of contract code nothing is translated. */
  lemma HandlesKeptApart(s: State, v: Val)
    ensures v.Small? ==> ToAbsolute(s, v) == Ok(v) && ToRelative(s, v) == (s, Ok(v))
    ensures v.Object? && v.handle % 2 == 0 ==> ToRelative(s, v) == (s, Err(InternalError)) && Visit(s, v) == Err(InternalError)
    ensures v.Object? && v.handle % 2 == 1 ==>
              && ToAbsolute(s, v) == Err(InvalidInput)
              && Visit(s, v) == if v.handle / 2 < |s.objects| then Ok(s.objects[v.handle / 2]) else Err(InvalidInput)
    ensures v.Object? && (s.frames == [] || s.frames[|s.frames| - 1].OtherFrame?) ==>
              ToRelative(s, v) == (s, Err(InternalError)) && ToAbsolute(s, v).Err?
  {
  }

  /** A created object is found under its handle for good. */
  lemma CreatedIsStable(s: State, o: HostObject, events: seq<Event>, floor: nat)
    requires |s.objects| < 0x8000_0000 && floor <= |s.frames|
    requires Run(AddObject(s, o).0, events, floor).Some?
    ensures var (s1, r) := AddObject(s, o);
            r.Ok? && r.value.Object? && Visit(Run(s1, events, floor).value, r.value) == Ok(o) && r.value.tag == o.kind
  {
    var (s1, r) := AddObject(s, o);
    RunGrows(s1, events, floor);
    HandleRoundTrip(|s.objects|, false);
    assert s1.objects[|s.objects|] == o;
  }

  // ---------- as the source has them ----------

  class Host {
    var objects: seq<HostObject>
    var frames: seq<Frame>

    function View(): State
      reads this
    {
      State(objects, frames)
    }

    constructor ()
      ensures View() == State([], [])
    {
      objects, frames := [], [];
    }

    method AddHostObject(o: HostObject) returns (r: Result<Val, Error>)
      modifies this`objects
      ensures (View(), r) == AddObject(old(View()), o)
    {
      var handle := IndexToHandle(|objects|, false);
      match handle {
        case Err(e) => r := Err(e);
        case Ok(h) =>
          objects := objects + [o];
          r := Ok(Object(h, o.kind));
      }
    }

    method AbsoluteToRelative(v: Val) returns (r: Result<Val, Error>)
      modifies this`frames
      ensures (View(), r) == ToRelative(old(View()), v)
    {
      if v.Small? { return Ok(v); }
      if IsRelative(v.handle) { return Err(InternalError); }
      var n := |frames|;
      if n == 0 || frames[n - 1].OtherFrame? { return Err(InternalError); }
      var index := |frames[n - 1].table|;
      frames := frames[n - 1 := VmFrame(frames[n - 1].table + [v])];
      var handle := IndexToHandle(index, true);
      match handle {
        case Err(e) => r := Err(e);
        case Ok(h) => r := Ok(Object(h, v.tag));
      }
    }

    method RelativeToAbsolute(v: Val) returns (r: Result<Val, Error>)
      ensures r == ToAbsolute(View(), v)
    {
      if v.Small? { return Ok(v); }
      if !IsRelative(v.handle) { return Err(InvalidInput); }
      var n := |frames|;
      if n == 0 || frames[n - 1].OtherFrame? { return Err(InternalError); }
      var table := frames[n - 1].table;
      var index := HandleToIndex(v.handle);
      if index >= |table| { return Err(InvalidInput); }
      var abs := table[index];
      if abs.Object? && abs.tag == v.tag { return Ok(abs); }
      r := Err(InvalidInput);
    }
  }
}
