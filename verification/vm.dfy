/** Contract execution: host calls over a write overlay, and the single flat map
    that a contract is meant to see. */
module Vm {
  import opened Types

  datatype VmError = OutOfGas | MemoryViolation | Trapped

  datatype ContractEvent = ContractEvent(contract: Hash32, data: Bytes)

  datatype Context = Context(
    contractId: Hash32,
    gas: nat,
    diff: map<Bytes, Bytes>,
    existing: map<Bytes, Bytes>,
    events: seq<ContractEvent>,
    memory: Bytes)

  datatype HostCall =
    | StorageSet(kPtr: nat, kLen: nat, vPtr: nat, vLen: nat)
    | EmitEvent(dPtr: nat, dLen: nat)
    | Sha3(inPtr: nat, inLen: nat, outPtr: nat)
    | StorageGet(kPtr: nat, kLen: nat, outPtr: nat)

  function ReadMemory(memory: Bytes, ptr: nat, len: nat): Result<Bytes, VmError> {
    if ptr + len > |memory| then Err(MemoryViolation) else Ok(memory[ptr..ptr + len])
  }

  function WriteMemory(memory: Bytes, ptr: nat, data: Bytes): Result<Bytes, VmError> {
    if ptr + |data| > |memory| then Err(MemoryViolation)
    else Ok(memory[..ptr] + data + memory[ptr + |data|..])
  }

  /** A length as the 32-bit signed number the host returns it as. */
  function AsI32(n: nat): int {
    var low := n % 0x1_0000_0000;
    if low < 0x8000_0000 then low else low - 0x1_0000_0000
  }

  /** One host call; an error traps the whole run. */
  function Host(blake3: Bytes -> Hash32, c: Context, call: HostCall): Result<(Context, int), VmError> {
    match call
    case StorageSet(kPtr, kLen, vPtr, vLen) =>
      var key := ReadMemory(c.memory, kPtr, kLen);
      var val := ReadMemory(c.memory, vPtr, vLen);
      if key.Err? then Err(key.error)
      else if val.Err? then Err(val.error)
      else if c.gas < 500 + |val.value| * 10 then Err(OutOfGas)
      else Ok((c.(gas := c.gas - (500 + |val.value| * 10), diff := c.diff[key.value := val.value]), 0))
    case EmitEvent(dPtr, dLen) =>
      var data := ReadMemory(c.memory, dPtr, dLen);
      if data.Err? then Err(data.error)
      else if c.gas < 100 + |data.value| * 5 then Err(OutOfGas)
      else
        var event := ContractEvent(c.contractId, data.value);
        Ok((c.(gas := c.gas - (100 + |data.value| * 5), events := c.events + [event]), 0))
    case Sha3(inPtr, inLen, outPtr) =>
      var data := ReadMemory(c.memory, inPtr, inLen);
      if data.Err? then Err(data.error)
      else if c.gas < 50 + |data.value| * 5 then Err(OutOfGas)
      else
        var memory := WriteMemory(c.memory, outPtr, blake3(data.value).bytes);
        if memory.Err? then Err(memory.error)
        else Ok((c.(gas := c.gas - (50 + |data.value| * 5), memory := memory.value), 0))
    case StorageGet(kPtr, kLen, outPtr) =>
      var key := ReadMemory(c.memory, kPtr, kLen);
      if key.Err? then Err(key.error)
      else if c.gas < 200 + |key.value| * 5 then Err(OutOfGas)
      else
        var d := c.(gas := c.gas - (200 + |key.value| * 5));
        var value := if key.value in c.diff then Some(c.diff[key.value])
                     else if key.value in c.existing then Some(c.existing[key.value]) else None;
        if value.None? then Ok((d, -1))
        else
          var memory := WriteMemory(c.memory, outPtr, value.value);
          if memory.Err? then Err(memory.error) else Ok((d.(memory := memory.value), AsI32(|value.value|)))
  }

  // --------------------------------------------------------- the flat machine

  /** What a contract is meant to run on: one map from keys to values. */
  datatype Flat = Flat(
    contractId: Hash32, gas: nat, state: map<Bytes, Bytes>, events: seq<ContractEvent>, memory: Bytes)

  /** The gas a call costs when it gets to paying. */
  function Cost(call: HostCall): nat {
    match call
    case StorageSet(_, _, _, vLen) => 500 + vLen * 10
    case EmitEvent(_, dLen) => 100 + dLen * 5
    case Sha3(_, inLen, _) => 50 + inLen * 5
    case StorageGet(_, kLen, _) => 200 + kLen * 5
  }

  /** The ranges a call reads lie in memory. */
  predicate InMemory(size: nat, call: HostCall) {
    match call
    case StorageSet(kPtr, kLen, vPtr, vLen) => kPtr + kLen <= size && vPtr + vLen <= size
    case EmitEvent(dPtr, dLen) => dPtr + dLen <= size
    case Sha3(inPtr, inLen, _) => inPtr + inLen <= size
    case StorageGet(kPtr, kLen, _) => kPtr + kLen <= size
  }

  function Overwrite(f: Flat, ptr: nat, data: Bytes, answer: int): Result<(Flat, int), VmError> {
    var memory := WriteMemory(f.memory, ptr, data);
    if memory.Err? then Err(memory.error) else Ok((f.(memory := memory.value), answer))
  }

  /** Check the ranges, pay, then act on the one map. */
  function FlatHost(blake3: Bytes -> Hash32, f: Flat, call: HostCall): Result<(Flat, int), VmError> {
    if !InMemory(|f.memory|, call) then Err(MemoryViolation)
    else if f.gas < Cost(call) then Err(OutOfGas)
    else
      var paid := f.(gas := f.gas - Cost(call));
      match call
      case StorageSet(kPtr, kLen, vPtr, vLen) =>
        Ok((paid.(state := f.state[f.memory[kPtr..kPtr + kLen] := f.memory[vPtr..vPtr + vLen]]), 0))
      case EmitEvent(dPtr, dLen) =>
        Ok((paid.(events := f.events + [ContractEvent(f.contractId, f.memory[dPtr..dPtr + dLen])]), 0))
      case Sha3(inPtr, inLen, outPtr) =>
        Overwrite(paid, outPtr, blake3(f.memory[inPtr..inPtr + inLen]).bytes, 0)
      case StorageGet(kPtr, kLen, outPtr) =>
        var key := f.memory[kPtr..kPtr + kLen];
        if key in f.state then Overwrite(paid, outPtr, f.state[key], AsI32(|f.state[key]|)) else Ok((paid, -1))
  }

  function Flatten(c: Context): Flat {
    Flat(c.contractId, c.gas, c.existing + c.diff, c.events, c.memory)
  }

  /** A host call over the overlay agrees with the call on the flat map. */
  predicate Agrees(blake3: Bytes -> Hash32, c: Context, call: HostCall) {
    var (r, f) := (Host(blake3, c, call), FlatHost(blake3, Flatten(c), call));
    && (r.Err? <==> f.Err?) && (r.Err? ==> r.error == f.error)
    && (r.Ok? ==> f.value == (Flatten(r.value.0), r.value.1)
                  && r.value.0.existing == c.existing && r.value.0.gas < c.gas)
  }

  lemma MergePut(a: map<Bytes, Bytes>, b: map<Bytes, Bytes>, key: Bytes, val: Bytes)
    ensures a + b[key := val] == (a + b)[key := val]
  {
  }

  lemma SetAgrees(blake3: Bytes -> Hash32, c: Context, call: HostCall)
    requires call.StorageSet?
    ensures Agrees(blake3, c, call)
  {
    hide AsI32, WriteMemory, ReadMemory, Overwrite;
    var StorageSet(kPtr, kLen, vPtr, vLen) := call;
    Reads(c.memory, kPtr, kLen);
    Reads(c.memory, vPtr, vLen);
    if InMemory(|c.memory|, call) {
      MergePut(c.existing, c.diff, c.memory[kPtr..kPtr + kLen], c.memory[vPtr..vPtr + vLen]);
    }
  }

  lemma Reads(memory: Bytes, ptr: nat, len: nat)
    ensures ReadMemory(memory, ptr, len)
            == (if ptr + len > |memory| then Err(MemoryViolation) else Ok(memory[ptr..ptr + len]))
  {
  }

  lemma EmitAgrees(blake3: Bytes -> Hash32, c: Context, call: HostCall)
    requires call.EmitEvent?
    ensures Agrees(blake3, c, call)
  {
  }

  lemma DigestAgrees(blake3: Bytes -> Hash32, c: Context, call: HostCall)
    requires call.Sha3?
    ensures Agrees(blake3, c, call)
  {
    hide WriteMemory;
  }

  lemma GetAgrees(blake3: Bytes -> Hash32, c: Context, call: HostCall)
    requires call.StorageGet?
    ensures Agrees(blake3, c, call)
  {
    hide AsI32, WriteMemory;
    var StorageGet(kPtr, kLen, _) := call;
    if kPtr + kLen <= |c.memory| {
      var key := c.memory[kPtr..kPtr + kLen];
      assert key in c.existing + c.diff <==> key in c.existing || key in c.diff;
    }
  }

  /** One host call over the overlay is one call on the flat map: same answer, same
      error, same gas, events and memory; and the loaded state is never touched. */
  lemma HostIsFlat(blake3: Bytes -> Hash32, c: Context, call: HostCall)
    ensures var (r, f) := (Host(blake3, c, call), FlatHost(blake3, Flatten(c), call));
            && (r.Err? <==> f.Err?) && (r.Err? ==> r.error == f.error)
            && (r.Ok? ==> f.value == (Flatten(r.value.0), r.value.1)
                          && r.value.0.existing == c.existing && r.value.0.gas < c.gas)
  {
    hide Host, FlatHost;
    match call
    case StorageSet(_, _, _, _) => SetAgrees(blake3, c, call);
    case EmitEvent(_, _) => EmitAgrees(blake3, c, call);
    case Sha3(_, _, _) => DigestAgrees(blake3, c, call);
    case StorageGet(_, _, _) => GetAgrees(blake3, c, call);
  }

  // ------------------------------------------------ what a host call amounts to

  /** A write puts the data where it belongs and touches nothing else, or, when it does not
      fit, nothing at all. */
  lemma WritesThere(memory: Bytes, ptr: nat, data: Bytes)
    ensures var r := WriteMemory(memory, ptr, data);
            && (r.Ok? <==> ptr + |data| <= |memory|) && (r.Err? ==> r.error == MemoryViolation)
            && (r.Ok? ==>
                  && |r.value| == |memory| && r.value[ptr..ptr + |data|] == data
                  && forall i :: 0 <= i < |memory| && !(ptr <= i < ptr + |data|) ==> r.value[i] == memory[i])
  {
  }

  /** The 32-bit signed number that is congruent to the length. */
  lemma WrapsAround(n: nat)
    ensures -0x8000_0000 <= AsI32(n) < 0x8000_0000
    ensures exists k: nat :: AsI32(n) == n - k * 0x1_0000_0000
    ensures n < 0x8000_0000 ==> AsI32(n) == n
  {
    var (q, low) := (n / 0x1_0000_0000, n % 0x1_0000_0000);
    assert n == q * 0x1_0000_0000 + low;
    assert AsI32(n) == n - q * 0x1_0000_0000 || AsI32(n) == n - (q + 1) * 0x1_0000_0000;
  }

  /** What was written last under a key is what is read back, at its full price. */
  lemma SetThenGet(blake3: Bytes -> Hash32, c: Context, kPtr: nat, kLen: nat, vPtr: nat, vLen: nat, outPtr: nat)
    ensures var r := Host(blake3, c, StorageSet(kPtr, kLen, vPtr, vLen));
            && (r.Ok? <==> kPtr + kLen <= |c.memory| && vPtr + vLen <= |c.memory| && c.gas >= 500 + 10 * vLen)
            && (r == Err(MemoryViolation) <==> kPtr + kLen > |c.memory| || vPtr + vLen > |c.memory|)
            && (r.Ok? ==>
                  var d := r.value.0;
                  var g := Host(blake3, d, StorageGet(kPtr, kLen, outPtr));
                  && r.value.1 == 0 && d.gas == c.gas - 500 - 10 * vLen
                  && d == c.(gas := d.gas, diff := d.diff)
                  && (g.Ok? <==> d.gas >= 200 + 5 * kLen && outPtr + vLen <= |c.memory|)
                  && (g.Ok? ==>
                        && g.value.1 == AsI32(vLen) && g.value.0.gas == d.gas - 200 - 5 * kLen
                        && g.value.0 == d.(gas := g.value.0.gas, memory := g.value.0.memory)
                        && |g.value.0.memory| == |c.memory|
                        && g.value.0.memory[outPtr..outPtr + vLen] == c.memory[vPtr..vPtr + vLen]))
  {
    hide AsI32, WriteMemory;
    if vPtr + vLen <= |c.memory| {
      WritesThere(c.memory, outPtr, c.memory[vPtr..vPtr + vLen]);
    }
  }

  /** A key that was never written reads as absent, and one that was only loaded as loaded. */
  lemma GetLoaded(blake3: Bytes -> Hash32, c: Context, kPtr: nat, kLen: nat, outPtr: nat)
    requires kPtr + kLen <= |c.memory| && c.memory[kPtr..kPtr + kLen] !in c.diff
    ensures var key := c.memory[kPtr..kPtr + kLen];
            var r := Host(blake3, c, StorageGet(kPtr, kLen, outPtr));
            && (r == Err(OutOfGas) <==> c.gas < 200 + 5 * kLen)
            && (r.Ok? && key !in c.existing ==> r.value.1 == -1 && r.value.0.memory == c.memory)
            && (r.Ok? && key in c.existing ==>
                  && r.value.1 == AsI32(|c.existing[key]|) && outPtr + |c.existing[key]| <= |c.memory|
                  && |r.value.0.memory| == |c.memory|
                  && r.value.0.memory[outPtr..outPtr + |c.existing[key]|] == c.existing[key])
  {
    hide AsI32, WriteMemory;
    var key := c.memory[kPtr..kPtr + kLen];
    if key in c.existing {
      WritesThere(c.memory, outPtr, c.existing[key]);
    }
  }

  /** Events carry the contract and the data, in the order of the calls; a digest lands
      where it was asked for. */
  lemma EmitAndDigest(blake3: Bytes -> Hash32, c: Context, ptr: nat, len: nat, outPtr: nat)
    ensures var e := Host(blake3, c, EmitEvent(ptr, len));
            && (e.Ok? <==> ptr + len <= |c.memory| && c.gas >= 100 + 5 * len)
            && (e == Err(MemoryViolation) <==> ptr + len > |c.memory|)
            && (e.Ok? ==> e.value.1 == 0 && e.value.0 == c.(gas := c.gas - 100 - 5 * len, events := e.value.0.events)
                          && e.value.0.events == c.events + [ContractEvent(c.contractId, c.memory[ptr..ptr + len])])
    ensures var d := Host(blake3, c, Sha3(ptr, len, outPtr));
            && (d.Ok? <==> ptr + len <= |c.memory| && c.gas >= 50 + 5 * len && outPtr + 32 <= |c.memory|)
            && (d.Ok? ==> d.value.1 == 0 && |d.value.0.memory| == |c.memory|
                          && d.value.0 == c.(gas := c.gas - 50 - 5 * len, memory := d.value.0.memory)
                          && d.value.0.memory[outPtr..outPtr + 32] == blake3(c.memory[ptr..ptr + len]).bytes)
  {
    hide WriteMemory;
    if ptr + len <= |c.memory| {
      WritesThere(c.memory, outPtr, blake3(c.memory[ptr..ptr + len]).bytes);
    }
  }

  // --------------------------------------------------------------- whole runs

  datatype Answer = Answer(value: int, memory: Bytes)

  datatype Move = Return | Trap | Call(memory: Bytes, call: HostCall)

  /** A contract method: from all answers so far, what it does next. Between host
      calls it may fill its memory in any way, and stop or trap at any point. */
  type Contract = seq<Answer> -> Move

  /** A run ends because every host call costs gas. */
  function Run(blake3: Bytes -> Hash32, k: Contract, c: Context, past: seq<Answer>): Result<Context, VmError>
    decreases c.gas
  {
    match k(past)
    case Return => Ok(c)
    case Trap => Err(Trapped)
    case Call(memory, call) =>
      var r := Host(blake3, c.(memory := memory), call);
      if r.Err? then Err(r.error)
      else
        HostIsFlat(blake3, c.(memory := memory), call);
        Run(blake3, k, r.value.0, past + [Answer(r.value.1, r.value.0.memory)])
  }

  function FlatRun(blake3: Bytes -> Hash32, k: Contract, f: Flat, past: seq<Answer>): Result<Flat, VmError>
    decreases f.gas
  {
    match k(past)
    case Return => Ok(f)
    case Trap => Err(Trapped)
    case Call(memory, call) =>
      var r := FlatHost(blake3, f.(memory := memory), call);
      if r.Err? then Err(r.error)
      else FlatRun(blake3, k, r.value.0, past + [Answer(r.value.1, r.value.0.memory)])
  }

  /** Overlay refinement: for every contract, reacting in any way to the answers it
      gets, a run over the overlay is the run on the flat map. */
  lemma {:induction false} RunIsFlat(blake3: Bytes -> Hash32, k: Contract, c: Context, past: seq<Answer>)
    ensures var (r, f) := (Run(blake3, k, c, past), FlatRun(blake3, k, Flatten(c), past));
            && (r.Err? <==> f.Err?) && (r.Err? ==> r.error == f.error)
            && (r.Ok? ==> f.value == Flatten(r.value) && r.value.existing == c.existing)
    decreases c.gas
  {
    var move := k(past);
    if move.Call? {
      hide Host, FlatHost;
      var d := c.(memory := move.memory);
      var r := Host(blake3, d, move.call);
      HostIsFlat(blake3, d, move.call);
      assert Flatten(c).(memory := move.memory) == Flatten(d);
      if r.Ok? {
        RunIsFlat(blake3, k, r.value.0, past + [Answer(r.value.1, r.value.0.memory)]);
      }
    }
  }

  /** What `execute` hands back: the overlay on success, nothing on a trap. A module
      that does not load, or lacks its memory or the method, fails as well. */
  function Execute(blake3: Bytes -> Hash32, k: Option<Contract>, id: Hash32, gas: nat, existing: map<Bytes, Bytes>)
    : Result<Context, VmError>
  {
    if k.None? then Err(Trapped) else Run(blake3, k.value, Context(id, gas, map[], existing, [], []), [])
  }

  /** The reference: run on the flat map; keep it on success, drop it on a trap. */
  function FlatExecute(blake3: Bytes -> Hash32, k: Option<Contract>, id: Hash32, gas: nat, state: map<Bytes, Bytes>)
    : map<Bytes, Bytes>
  {
    if k.None? then state
    else
      var r := FlatRun(blake3, k.value, Flat(id, gas, state, [], []), []);
      if r.Ok? then r.value.state else state
  }

  lemma ExecuteIsFlat(blake3: Bytes -> Hash32, k: Option<Contract>, id: Hash32, gas: nat, existing: map<Bytes, Bytes>)
    ensures var r := Execute(blake3, k, id, gas, existing);
            FlatExecute(blake3, k, id, gas, existing) == if r.Ok? then existing + r.value.diff else existing
  {
    if k.Some? {
      var c := Context(id, gas, map[], existing, [], []);
      assert existing + map[] == existing;
      RunIsFlat(blake3, k.value, c, []);
    }
  }

  /** The method ends only by trapping or when a host call fails. */
  ghost predicate NeverReturns(k: Contract) {
    forall past :: !k(past).Return?
  }

  /** Whatever it wrote before, a method that does not return leaves no trace, nor does a
      module that does not load. */
  lemma NoReturnNoTrace(blake3: Bytes -> Hash32, k: Option<Contract>, id: Hash32, gas: nat, state: map<Bytes, Bytes>)
    requires k.Some? ==> NeverReturns(k.value)
    ensures Execute(blake3, k, id, gas, state).Err? && FlatExecute(blake3, k, id, gas, state) == state
  {
    if k.Some? {
      RunsOut(blake3, k.value, Context(id, gas, map[], state, [], []), []);
    }
    ExecuteIsFlat(blake3, k, id, gas, state);
  }

  lemma {:induction false} RunsOut(blake3: Bytes -> Hash32, k: Contract, c: Context, past: seq<Answer>)
    requires NeverReturns(k)
    ensures Run(blake3, k, c, past).Err?
    decreases c.gas
  {
    hide Host;
    var move := k(past);
    if move.Call? {
      var d := c.(memory := move.memory);
      var r := Host(blake3, d, move.call);
      HostIsFlat(blake3, d, move.call);
      if r.Ok? {
        RunsOut(blake3, k, r.value.0, past + [Answer(r.value.1, r.value.0.memory)]);
      }
    }
  }

  // ---------------------------------------------------------------- the class

  class ExecutionContext {
    const blake3: Bytes -> Hash32
    const contractId: Hash32
    const existing: map<Bytes, Bytes>
    var gasRemaining: nat
    var stateDiff: map<Bytes, Bytes>
    var events: seq<ContractEvent>
    var memory: Bytes

    function State(): Context
      reads this
    {
      Context(contractId, gasRemaining, stateDiff, existing, events, memory)
    }

    constructor (blake3: Bytes -> Hash32, c: Context)
      ensures State() == c && this.blake3 == blake3
    {
      this.blake3, contractId, existing := blake3, c.contractId, c.existing;
      gasRemaining, stateDiff, events, memory := c.gas, c.diff, c.events, c.memory;
    }

    method ChargeGas(amount: nat) returns (ok: bool)
      modifies this`gasRemaining
      ensures ok == (old(gasRemaining) >= amount)
      ensures gasRemaining == if ok then old(gasRemaining) - amount else old(gasRemaining)
    {
      if gasRemaining < amount {
        return false;
      }
      gasRemaining := gasRemaining - amount;
      return true;
    }

    /** Writes the whole range or nothing. */
    method Write(ptr: nat, data: Bytes) returns (ok: bool)
      modifies this`memory
      ensures var r := WriteMemory(old(memory), ptr, data);
              ok == r.Ok? && memory == if ok then r.value else old(memory)
    {
      if ptr + |data| > |memory| {
        return false;
      }
      memory := memory[..ptr] + data + memory[ptr + |data|..];
      return true;
    }

    method Set(kPtr: nat, kLen: nat, vPtr: nat, vLen: nat) returns (r: Result<int, VmError>)
      modifies this
      ensures Matches(r, State(), Host(blake3, old(State()), StorageSet(kPtr, kLen, vPtr, vLen)))
    {
      var key := ReadMemory(memory, kPtr, kLen);
      if key.Err? {
        return Err(key.error);
      }
      var val := ReadMemory(memory, vPtr, vLen);
      if val.Err? {
        return Err(val.error);
      }
      var ok := ChargeGas(500 + |val.value| * 10);
      if !ok {
        return Err(OutOfGas);
      }
      stateDiff := stateDiff[key.value := val.value];
      return Ok(0);
    }

    method Emit(dPtr: nat, dLen: nat) returns (r: Result<int, VmError>)
      modifies this
      ensures Matches(r, State(), Host(blake3, old(State()), EmitEvent(dPtr, dLen)))
    {
      var data := ReadMemory(memory, dPtr, dLen);
      if data.Err? {
        return Err(data.error);
      }
      var ok := ChargeGas(100 + |data.value| * 5);
      if !ok {
        return Err(OutOfGas);
      }
      events := events + [ContractEvent(contractId, data.value)];
      return Ok(0);
    }

    method Digest(inPtr: nat, inLen: nat, outPtr: nat) returns (r: Result<int, VmError>)
      modifies this
      ensures Matches(r, State(), Host(blake3, old(State()), Sha3(inPtr, inLen, outPtr)))
    {
      var data := ReadMemory(memory, inPtr, inLen);
      if data.Err? {
        return Err(data.error);
      }
      var ok := ChargeGas(50 + |data.value| * 5);
      if !ok {
        return Err(OutOfGas);
      }
      ok := Write(outPtr, blake3(data.value).bytes);
      if !ok {
        return Err(MemoryViolation);
      }
      return Ok(0);
    }

    method Get(kPtr: nat, kLen: nat, outPtr: nat) returns (r: Result<int, VmError>)
      modifies this
      ensures Matches(r, State(), Host(blake3, old(State()), StorageGet(kPtr, kLen, outPtr)))
    {
      var key := ReadMemory(memory, kPtr, kLen);
      if key.Err? {
        return Err(key.error);
      }
      var ok := ChargeGas(200 + |key.value| * 5);
      if !ok {
        return Err(OutOfGas);
      }
      var value := None;
      if key.value in stateDiff {
        value := Some(stateDiff[key.value]);
      } else if key.value in existing {
        value := Some(existing[key.value]);
      }
      if value.None? {
        return Ok(-1);
      }
      ok := Write(outPtr, value.value);
      if !ok {
        return Err(MemoryViolation);
      }
      return Ok(AsI32(|value.value|));
    }
  }

  /** A host method agrees with its specification; after an error the run is over
      and the context is discarded. */
  predicate Matches(r: Result<int, VmError>, after: Context, spec: Result<(Context, int), VmError>) {
    match spec
    case Ok(outcome) => r == Ok(outcome.1) && after == outcome.0
    case Err(error) => r == Err(error)
  }
}
