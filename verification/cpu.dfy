/** Opcode dispatch and the instruction step (src/cpu/mod.rs).
    The matcher holds an ordered table of (pattern, mask, handler)
    descriptors; an instruction is dispatched to the handler of the first
    descriptor whose pattern equals the instruction under its mask, and an
    instruction no descriptor matches is a fatal error carrying its value.
    Handlers are function pointers in the source; here they are opaque
    identifiers, and a step yields the handler to run and the instruction
    to run it with. */
module Cpu {
  import opened Bits
  import opened Results
  import Bus
  import Memory

  /** Identifies an instruction handler. */
  datatype Handler = Handler(id: nat)

  datatype OpcodeDesc = OpcodeDesc(pattern: u16, mask: u16, handler: Handler)

  datatype OpcodeMatcher = OpcodeMatcher(registered: seq<OpcodeDesc>)

  /** The fatal dispatch failure: no descriptor matches the instruction. */
  datatype MatchError = NoMatch(opcode: u16)

  predicate Matches(d: OpcodeDesc, opcode: u16) {
    BitAnd(opcode, d.mask) == d.pattern
  }

  /** `i` is the position of the first descriptor of `ds` that matches. */
  ghost predicate FirstMatchAt(ds: seq<OpcodeDesc>, opcode: u16, i: int) {
    && 0 <= i < |ds|
    && Matches(ds[i], opcode)
    && forall j :: 0 <= j < i ==> !Matches(ds[j], opcode)
  }

  /** Appends a descriptor: the earlier descriptors keep their positions and
      the new one comes after all of them. */
  function Register(m: OpcodeMatcher, d: OpcodeDesc): (m': OpcodeMatcher)
    ensures |m'.registered| == |m.registered| + 1
    ensures m'.registered[..|m.registered|] == m.registered
    ensures m'.registered[|m.registered|] == d
  {
    OpcodeMatcher(m.registered + [d])
  }

  /** The handler of the first matching descriptor at or after position `from`. */
  function MatchFrom(ds: seq<OpcodeDesc>, opcode: u16, from: nat): (r: Result<Handler, MatchError>)
    requires from <= |ds|
    ensures r.Failure? <==> forall j :: from <= j < |ds| ==> !Matches(ds[j], opcode)
    ensures r.Failure? ==> r.error == NoMatch(opcode)
    ensures r.Success? ==>
              exists i :: from <= i < |ds| && Matches(ds[i], opcode) && r.value == ds[i].handler
                          && forall j :: from <= j < i ==> !Matches(ds[j], opcode)
    decreases |ds| - from
  {
    if from == |ds| then Failure(NoMatch(opcode))
    else if Matches(ds[from], opcode) then Success(ds[from].handler)
    else MatchFrom(ds, opcode, from + 1)
  }

  /** Dispatches an instruction: the handler of the first registered
      descriptor that matches it, or the fatal failure naming the instruction
      when none does. */
  function MatchOpcode(m: OpcodeMatcher, opcode: u16): (r: Result<Handler, MatchError>)
    ensures r.Failure? <==> forall i :: 0 <= i < |m.registered| ==> !Matches(m.registered[i], opcode)
    ensures r.Failure? ==> r.error == NoMatch(opcode)
    ensures r.Success? ==>
              exists i :: FirstMatchAt(m.registered, opcode, i) && r.value == m.registered[i].handler
  {
    MatchFrom(m.registered, opcode, 0)
  }

  /** At most one position is the first match. */
  lemma FirstMatchUnique(ds: seq<OpcodeDesc>, opcode: u16, i: int, j: int)
    requires FirstMatchAt(ds, opcode, i) && FirstMatchAt(ds, opcode, j)
    ensures i == j
  {
  }

  /** The empty matcher, with which every dispatch fails. */
  function Default(): (m: OpcodeMatcher)
    ensures forall opcode: u16 :: MatchOpcode(m, opcode) == Failure(NoMatch(opcode))
  {
    OpcodeMatcher([])
  }

  /** Registering a descriptor never changes the dispatch of an instruction
      an earlier descriptor already matches; an instruction nothing matched
      before now goes to the new handler exactly when the new descriptor
      matches it. */
  lemma RegisterKeepsEarlierMatches(m: OpcodeMatcher, d: OpcodeDesc, opcode: u16)
    ensures MatchOpcode(m, opcode).Success? ==>
              MatchOpcode(Register(m, d), opcode) == MatchOpcode(m, opcode)
    ensures MatchOpcode(m, opcode).Failure? ==>
              MatchOpcode(Register(m, d), opcode)
              == if Matches(d, opcode) then Success(d.handler) else Failure(NoMatch(opcode))
  {
    var ds, ds' := m.registered, Register(m, d).registered;
    var r, r' := MatchOpcode(m, opcode), MatchOpcode(Register(m, d), opcode);
    assert forall j :: 0 <= j < |ds| ==> ds'[j] == ds[j];
    if r.Success? {
      var i :| FirstMatchAt(ds, opcode, i) && r.value == ds[i].handler;
      assert FirstMatchAt(ds', opcode, i);
      var i' :| FirstMatchAt(ds', opcode, i') && r'.value == ds'[i'].handler;
      FirstMatchUnique(ds', opcode, i, i');
    } else if Matches(d, opcode) {
      assert FirstMatchAt(ds', opcode, |ds|);
      var i' :| FirstMatchAt(ds', opcode, i') && r'.value == ds'[i'].handler;
      FirstMatchUnique(ds', opcode, |ds|, i');
    } else {
      assert forall i :: 0 <= i < |ds'| ==> !Matches(ds'[i], opcode);
    }
  }

  /** A descriptor whose mask keeps all sixteen bits matches its pattern and nothing else. */
  lemma FullMaskMatchesExactly(d: OpcodeDesc, opcode: u16)
    requires d.mask == 0xFFFF
    ensures Matches(d, opcode) <==> opcode == d.pattern
  {
    MaskLow16(opcode);
  }

  /** The processor: the bus it fetches from and its opcode matcher. */
  datatype Cpu = Cpu(bus: Bus.Bus, matcher: OpcodeMatcher)

  /** A processor on `bus` with an empty matcher. */
  function New(bus: Bus.Bus): (c: Cpu)
    ensures c.bus == bus
    ensures forall opcode: u16 :: MatchOpcode(c.matcher, opcode).Failure?
  {
    Cpu(bus, Default())
  }

  /** The address every step fetches from; this revision has no program counter in the step. */
  const FETCH_ADDRESS: u16 := 0x200

  /** What a step runs next: a handler applied to the fetched instruction. */
  datatype Invocation = Invocation(handler: Handler, opcode: u16)

  /** The instruction a step fetches: the bytes at 0x200 and 0x201, high byte first. */
  function Fetch(bus: Bus.Bus): (opcode: u16)
    ensures opcode == (Memory.Index(bus.mem, 0x200) as int) * 0x100 + (Memory.Index(bus.mem, 0x201) as int)
  {
    var a := Bus.Address(FETCH_ADDRESS);
    Bus.ReadWordBelowTop(bus, a);
    Bus.ReadWord(bus, a)
  }

  /** One step: fetch the instruction at 0x200 and dispatch it. */
  function Step(c: Cpu): (r: Result<Invocation, MatchError>)
    ensures r.Success? ==> r.value.opcode == Fetch(c.bus)
                           && MatchOpcode(c.matcher, Fetch(c.bus)) == Success(r.value.handler)
    ensures r.Failure? <==> MatchOpcode(c.matcher, Fetch(c.bus)).Failure?
    ensures r.Failure? ==> r.error == NoMatch(Fetch(c.bus))
  {
    var opcode := Fetch(c.bus);
    match MatchOpcode(c.matcher, opcode)
    case Success(h) => Success(Invocation(h, opcode))
    case Failure(e) => Failure(e)
  }

  /** A step depends only on the matcher and the two bytes at 0x200 and 0x201. */
  lemma StepReadsOnlyFetchWord(c1: Cpu, c2: Cpu)
    requires c1.matcher == c2.matcher
    requires Memory.Index(c1.bus.mem, 0x200) == Memory.Index(c2.bus.mem, 0x200)
    requires Memory.Index(c1.bus.mem, 0x201) == Memory.Index(c2.bus.mem, 0x201)
    ensures Step(c1) == Step(c2)
  {
    assert Fetch(c1.bus) == Fetch(c2.bus);
  }

  /** A freshly built processor fails its first step on whatever word is at 0x200. */
  lemma NewCpuStepFails(bus: Bus.Bus)
    ensures Step(New(bus)).Failure?
    ensures Step(New(bus)).error.opcode == (Memory.Index(bus.mem, 0x200) as int) * 0x100 + (Memory.Index(bus.mem, 0x201) as int)
  {
  }
}
