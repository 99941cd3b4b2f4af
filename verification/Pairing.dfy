/**
 The channel pairing store: pending codes and allowed peers in memory, and the file that mirrors
 them. A write of the file may fail, and then its failure is ignored.
 */
module Pairing {
  import opened Wrappers
  import opened Json

  /** Time in milliseconds. */
  type Time = int

  /** A code is good for fifteen minutes. */
  const CODE_LIFETIME: int := 15 * 60 * 1000

  datatype PendingPair = PendingPair(channel: string, expiresAt: Time)

  datatype AllowedPeer = AllowedPeer(channel: string, peer: string, approvedAt: Time)

  /** What memory holds and what the file holds. */
  datatype Contents = Contents(pending: map<string, PendingPair>, allowed: seq<AllowedPeer>)

  datatype Store = Store(mem: Contents, disk: Contents)

  /** A missing or unreadable file reads as this. */
  const EMPTY: Contents := Contents(map[], [])

  /**
   One call, with the code drawn or the clock readings it makes; `approvedAt` is the second reading
   of `approve`, and `saved` says whether the call's write, if it makes one, succeeds. A restart
   reloads memory from the file.
   */
  datatype Op =
    | Create(channel: string, code: string, now: Time, saved: bool)
    | Approve(code: string, peer: string, now: Time, approvedAt: Time, saved: bool)
    | Revoke(channel: string, peer: string, now: Time, saved: bool)
    | Restart(now: Time)

  predicate Names(p: AllowedPeer, channel: string, peer: string) {
    p.channel == channel && p.peer == peer
  }

  /** `Vec::retain` of the peers that are not this one. */
  function Without(allowed: seq<AllowedPeer>, channel: string, peer: string): (kept: seq<AllowedPeer>)
    ensures forall p :: p in kept <==> p in allowed && !Names(p, channel, peer)
    ensures |kept| <= |allowed| && (|kept| == |allowed| ==> kept == allowed)
  {
    if allowed == [] then []
    else
      var rest := Without(allowed[..|allowed| - 1], channel, peer);
      if Names(allowed[|allowed| - 1], channel, peer) then rest else rest + [allowed[|allowed| - 1]]
  }

  predicate Lists(allowed: seq<AllowedPeer>, channel: string, peer: string) {
    exists i :: 0 <= i < |allowed| && Names(allowed[i], channel, peer)
  }

  /** The code is on file and has not expired: `approve` would accept it. */
  predicate Usable(c: Contents, code: string, now: Time) {
    code in c.pending && !(c.pending[code].expiresAt < now)
  }

  /** Memory after a call, and whether the call writes the file. `upper` is upper-casing. */
  function Change(mem: Contents, op: Op, upper: string -> string): (Contents, bool) {
    match op
    case Create(channel, code, now, _) =>
      (mem.(pending := mem.pending[code := PendingPair(channel, now + CODE_LIFETIME)]), true)
    case Approve(code, peer, now, approvedAt, _) =>
      var key := upper(code);
      if key !in mem.pending then (mem, false)
      else if mem.pending[key].expiresAt < now then (mem.(pending := mem.pending - {key}), false)
      else
        (Contents(mem.pending - {key}, mem.allowed + [AllowedPeer(mem.pending[key].channel, peer, approvedAt)]), true)
    case Revoke(channel, peer, _, _) =>
      var kept := Without(mem.allowed, channel, peer);
      (mem.(allowed := kept), |kept| < |mem.allowed|)
    case Restart(_) => (mem, false)
  }

  function Apply(s: Store, op: Op, upper: string -> string): Store {
    if op.Restart? then s.(mem := s.disk)
    else
      var (mem, writes) := Change(s.mem, op, upper);
      Store(mem, if writes && op.saved then mem else s.disk)
  }

  /** `pairing_required`: the channel's own setting, else whether the environment variable is set. */
  function PairingRequired(config: Json, envSet: bool): bool {
    match Get(config, "require_pairing")
    case Some(Bool(b)) => b
    case _ => envSet
  }

  /** What `is_allowed` answers. */
  predicate Answer(allowed: seq<AllowedPeer>, channel: string, peer: string, config: Json, envSet: bool) {
    PairingRequired(config, envSet) ==> Lists(allowed, channel, peer)
  }

  /** The channel's configuration has no boolean at `require_pairing`: absent, another kind, or no object at all. */
  ghost predicate Undecided(config: Json) {
    forall b: bool :: !Binds(config, "require_pairing", Bool(b))
  }

  /** The channel's own setting decides, and without one the environment. */
  lemma SettingDecides(allowed: seq<AllowedPeer>, channel: string, peer: string, config: Json, envSet: bool)
    ensures Binds(config, "require_pairing", Bool(true)) ==>
              (Answer(allowed, channel, peer, config, envSet) <==> Lists(allowed, channel, peer))
    ensures Binds(config, "require_pairing", Bool(false)) ==> Answer(allowed, channel, peer, config, envSet)
    ensures Undecided(config) ==>
              (Answer(allowed, channel, peer, config, envSet) <==> !envSet || Lists(allowed, channel, peer))
  {
    GetIff(config, "require_pairing", Bool(true));
    GetIff(config, "require_pairing", Bool(false));
  }

  class PairingStore {
    var pending: map<string, PendingPair>
    var allowed: seq<AllowedPeer>
    var file: Contents
    const upper: string -> string

    function State(): Store
      reads this
    {
      Store(Contents(pending, allowed), file)
    }

    /** `open_default`, on the file as it stands. */
    constructor (disk: Contents, upper: string -> string)
      ensures State() == Store(disk, disk) && this.upper == upper
    {
      pending, allowed, file := disk.pending, disk.allowed, disk;
      this.upper := upper;
    }

    method Persist(saved: bool)
      modifies this`file
      ensures file == if saved then Contents(pending, allowed) else old(file)
    {
      if saved {
        file := Contents(pending, allowed);
      }
    }

    method IsAllowed(channel: string, peer: string, config: Json, envSet: bool) returns (ok: bool)
      ensures ok == Answer(allowed, channel, peer, config, envSet)
      ensures Binds(config, "require_pairing", Bool(true)) ==> (ok <==> Lists(allowed, channel, peer))
      ensures Binds(config, "require_pairing", Bool(false)) ==> ok
      ensures Undecided(config) ==> (ok <==> !envSet || Lists(allowed, channel, peer))
    {
      SettingDecides(allowed, channel, peer, config, envSet);
      if !PairingRequired(config, envSet) {
        return true;
      }
      for i := 0 to |allowed|
        invariant forall j :: 0 <= j < i ==> !Names(allowed[j], channel, peer)
      {
        if Names(allowed[i], channel, peer) {
          return true;
        }
      }
      return false;
    }

    method CreateCode(channel: string, code: string, now: Time, saved: bool)
      modifies this
      ensures State() == Apply(old(State()), Create(channel, code, now, saved), upper)
      ensures pending == old(pending)[code := PendingPair(channel, now + 900_000)] && allowed == old(allowed)
      ensures file == if saved then Contents(pending, allowed) else old(file)
    {
      pending := pending[code := PendingPair(channel, now + CODE_LIFETIME)];
      Persist(saved);
    }

    method ApproveCode(code: string, peer: string, now: Time, approvedAt: Time, saved: bool)
      returns (result: Result<string, string>)
      modifies this
      ensures State() == Apply(old(State()), Approve(code, peer, now, approvedAt, saved), upper)
      ensures result.Success? <==> Usable(old(State()).mem, upper(code), now)
      ensures result.Success? <==> upper(code) in old(pending) && now <= old(pending)[upper(code)].expiresAt
      ensures pending == old(pending) - {upper(code)}
      ensures result.Success? ==>
                && result.value == old(pending)[upper(code)].channel
                && allowed == old(allowed) + [AllowedPeer(result.value, peer, approvedAt)]
      ensures result.Failure? ==>
                && allowed == old(allowed)
                && result.error ==
                   if upper(code) in old(pending) then "pairing code expired" else "invalid or expired pairing code"
      ensures file == if result.Success? && saved then Contents(pending, allowed) else old(file)
    {
      var key := upper(code);
      if key !in pending {
        return Failure("invalid or expired pairing code");
      }
      var entry := pending[key];
      pending := pending - {key};
      if entry.expiresAt < now {
        return Failure("pairing code expired");
      }
      allowed := allowed + [AllowedPeer(entry.channel, peer, approvedAt)];
      Persist(saved);
      return Success(entry.channel);
    }

    method RevokePeer(channel: string, peer: string, now: Time, saved: bool) returns (removed: bool)
      modifies this
      ensures State() == Apply(old(State()), Revoke(channel, peer, now, saved), upper)
      ensures removed <==> Lists(old(allowed), channel, peer)
      ensures pending == old(pending) && (!removed ==> allowed == old(allowed))
      ensures forall p :: p in allowed <==> p in old(allowed) && !Names(p, channel, peer)
      ensures file == if removed && saved then Contents(pending, allowed) else old(file)
    {
      var before := |allowed|;
      RetainShrinksIff(allowed, channel, peer);
      allowed := Without(allowed, channel, peer);
      removed := |allowed| < before;
      if removed {
        Persist(saved);
      }
    }
  }

  /** Retaining removes something exactly when the peer is listed. */
  lemma {:induction false} RetainShrinksIff(allowed: seq<AllowedPeer>, channel: string, peer: string)
    ensures |Without(allowed, channel, peer)| < |allowed| <==> Lists(allowed, channel, peer)
  {
    if allowed != [] {
      var init := allowed[..|allowed| - 1];
      RetainShrinksIff(init, channel, peer);
      assert Lists(init, channel, peer) ==> Lists(allowed, channel, peer);
    }
  }

  // Memory against file.

  /** The file lists the same peers, has every pending code, and any code it has besides is expired. */
  ghost predicate Consistent(s: Store, now: Time) {
    && s.disk.allowed == s.mem.allowed
    && (forall code :: code in s.mem.pending ==> code in s.disk.pending && s.disk.pending[code] == s.mem.pending[code])
    && (forall code :: code in s.disk.pending && code !in s.mem.pending ==> s.disk.pending[code].expiresAt < now)
  }

  /** Unless its write fails, a call keeps memory and file consistent while the clock does not run backwards. */
  lemma StepKeepsConsistent(s: Store, op: Op, now: Time, upper: string -> string)
    requires Consistent(s, now) && now <= op.now
    requires op.Restart? || !Change(s.mem, op, upper).1 || op.saved
    ensures Consistent(Apply(s, op, upper), op.now)
  {
  }

  /** The call changes the list of allowed peers. */
  predicate ChangesAllowed(mem: Contents, op: Op, upper: string -> string) {
    match op
    case Approve(code, _, now, _, _) => Usable(mem, upper(code), now)
    case Revoke(channel, peer, _, _) => Lists(mem.allowed, channel, peer)
    case _ => false
  }

  /**
   From a consistent store, the file lists the allowed peers after a call exactly when its write
   succeeded or the call had none to change: a failed write is ignored, and a restart undoes the call.
   */
  lemma FileFollowsIff(s: Store, op: Op, now: Time, upper: string -> string)
    requires Consistent(s, now) && now <= op.now
    ensures var s' := Apply(s, op, upper);
            s'.disk.allowed == s'.mem.allowed <==> !ChangesAllowed(s.mem, op, upper) || op.saved
  {
    if op.Revoke? {
      RetainShrinksIff(s.mem.allowed, op.channel, op.peer);
    }
  }

  /** After a successful approval and a restart, the same code can be approved again exactly when the write failed. */
  lemma ApprovedCodeRevivesIff(s: Store, code: string, peer: string, now: Time, at: Time, saved: bool, upper: string -> string)
    requires Consistent(s, now) && Usable(s.mem, upper(code), now)
    ensures var s' := Apply(Apply(s, Approve(code, peer, now, at, saved), upper), Restart(now), upper);
            Usable(s'.mem, upper(code), now) <==> !saved
  {
  }

  /** A restart of a consistent store changes neither who is allowed nor which codes can be approved. */
  lemma RestartChangesNothing(s: Store, now: Time, later: Time, code: string, upper: string -> string)
    requires Consistent(s, now) && now <= later
    ensures var s' := Apply(s, Restart(now), upper);
            && s'.mem.allowed == s.mem.allowed
            && (Usable(s'.mem, code, later) <==> Usable(s.mem, code, later))
  {
  }

  // Whole runs, from an absent file, with writes failing anywhere.

  function After(ops: seq<Op>, upper: string -> string): Store {
    if ops == [] then Store(EMPTY, EMPTY)
    else Apply(After(ops[..|ops| - 1], upper), ops[|ops| - 1], upper)
  }

  /** The clock never runs backwards. */
  ghost predicate Ordered(ops: seq<Op>) {
    forall i, j :: 0 <= i < j < |ops| ==> ops[i].now <= ops[j].now
  }

  /** A call at the end of a run is an approval that succeeds. */
  predicate Grants(ops: seq<Op>, i: nat, upper: string -> string)
    requires i < |ops|
  {
    ops[i].Approve? && Usable(After(ops[..i], upper).mem, upper(ops[i].code), ops[i].now)
  }

  /** The pair the i-th call grants. */
  predicate GrantsPair(ops: seq<Op>, i: nat, channel: string, peer: string, upper: string -> string)
    requires i < |ops|
  {
    && Grants(ops, i, upper) && ops[i].peer == peer
    && After(ops[..i], upper).mem.pending[upper(ops[i].code)].channel == channel
  }

  predicate RevokesPair(op: Op, channel: string, peer: string) {
    op.Revoke? && op.channel == channel && op.peer == peer
  }

  /** The last write attempted since the store was opened has failed. */
  predicate Lags(ops: seq<Op>, upper: string -> string) {
    if ops == [] || ops[|ops| - 1].Restart? then false
    else if Change(After(ops[..|ops| - 1], upper).mem, ops[|ops| - 1], upper).1 then !ops[|ops| - 1].saved
    else Lags(ops[..|ops| - 1], upper)
  }

  /** Every restart finds the last write done. */
  ghost predicate RestartsInStep(ops: seq<Op>, upper: string -> string) {
    forall i :: 0 <= i < |ops| && ops[i].Restart? ==> !Lags(ops[..i], upper)
  }

  lemma InStepBefore(ops: seq<Op>, upper: string -> string)
    requires ops != [] && RestartsInStep(ops, upper)
    ensures RestartsInStep(ops[..|ops| - 1], upper)
    ensures ops[|ops| - 1].Restart? ==> !Lags(ops[..|ops| - 1], upper)
  {
    forall i | 0 <= i < |ops| - 1 && ops[i].Restart?
      ensures !Lags(ops[..|ops| - 1][..i], upper)
    {
      assert ops[..|ops| - 1][..i] == ops[..i];
    }
  }

  /** Whatever failed before: when the last write attempted has not failed, memory and file are consistent. */
  lemma {:induction false} RunIsConsistent(ops: seq<Op>, now: Time, upper: string -> string)
    requires Ordered(ops) && (ops != [] ==> ops[|ops| - 1].now <= now) && !Lags(ops, upper)
    ensures Consistent(After(ops, upper), now)
  {
    if ops != [] {
      var init, last := ops[..|ops| - 1], ops[|ops| - 1];
      if !last.Restart? && !Change(After(init, upper).mem, last, upper).1 {
        RunIsConsistent(init, last.now, upper);
        StepKeepsConsistent(After(init, upper), last, last.now, upper);
      }
    }
  }

  /** The file always holds what memory held at some earlier point of the run. */
  lemma {:induction false} FileIsPastMemory(ops: seq<Op>, upper: string -> string) returns (i: nat)
    ensures i <= |ops| && After(ops, upper).disk == After(ops[..i], upper).mem
  {
    if ops == [] {
      i := 0;
    } else {
      var init, last := ops[..|ops| - 1], ops[|ops| - 1];
      if !last.Restart? && Change(After(init, upper).mem, last, upper).1 && last.saved {
        i := |ops|;
        assert ops[..i] == ops;
      } else {
        i := FileIsPastMemory(init, upper);
        assert init[..i] == ops[..i];
      }
    }
  }

  /** The latest approval or revocation of the pair was an approval. */
  predicate LastWordIsApproval(ops: seq<Op>, channel: string, peer: string, upper: string -> string) {
    if ops == [] then false
    else if GrantsPair(ops, |ops| - 1, channel, peer, upper) then true
    else if RevokesPair(ops[|ops| - 1], channel, peer) then false
    else LastWordIsApproval(ops[..|ops| - 1], channel, peer, upper)
  }

  /** Adding a peer to the list, or dropping one from it, concerns that pair alone. */
  lemma ListsOfAppend(allowed: seq<AllowedPeer>, p: AllowedPeer, channel: string, peer: string)
    ensures Lists(allowed + [p], channel, peer) <==> Lists(allowed, channel, peer) || Names(p, channel, peer)
  {
    assert (allowed + [p])[|allowed|] == p;
    if Lists(allowed, channel, peer) {
      var i :| 0 <= i < |allowed| && Names(allowed[i], channel, peer);
      assert (allowed + [p])[i] == allowed[i];
    }
  }

  lemma ListsOfWithout(allowed: seq<AllowedPeer>, c: string, p: string, channel: string, peer: string)
    ensures Lists(Without(allowed, c, p), channel, peer) <==> Lists(allowed, channel, peer) && !(c == channel && p == peer)
  {
    var kept := Without(allowed, c, p);
    if Lists(kept, channel, peer) {
      var i :| 0 <= i < |kept| && Names(kept[i], channel, peer);
      assert kept[i] in allowed;
    }
    if Lists(allowed, channel, peer) && !(c == channel && p == peer) {
      var i :| 0 <= i < |allowed| && Names(allowed[i], channel, peer);
      assert allowed[i] in kept;
    }
  }

  /** One call moves the list as it moves the last word. */
  lemma ListedStep(ops: seq<Op>, channel: string, peer: string, upper: string -> string)
    requires ops != [] && !ops[|ops| - 1].Restart?
    requires var init := ops[..|ops| - 1];
             Lists(After(init, upper).mem.allowed, channel, peer) <==> LastWordIsApproval(init, channel, peer, upper)
    ensures Lists(After(ops, upper).mem.allowed, channel, peer) <==> LastWordIsApproval(ops, channel, peer, upper)
  {
    var s := After(ops[..|ops| - 1], upper);
    match ops[|ops| - 1]
    case Approve(code, p, now, at, _) =>
      if Usable(s.mem, upper(code), now) {
        ListsOfAppend(s.mem.allowed, AllowedPeer(s.mem.pending[upper(code)].channel, p, at), channel, peer);
      }
    case Revoke(c, p, _, _) => ListsOfWithout(s.mem.allowed, c, p, channel, peer);
    case Create(_, _, _, _) =>
  }

  /**
   Over every run whose restarts find the last write done, the list with its duplicates behaves as a
   set of pairs: a pair is listed exactly when the latest approval or revocation of it was an approval.
   */
  lemma {:induction false} ListedIffLastWord(ops: seq<Op>, channel: string, peer: string, upper: string -> string)
    requires Ordered(ops) && RestartsInStep(ops, upper)
    ensures Lists(After(ops, upper).mem.allowed, channel, peer) <==> LastWordIsApproval(ops, channel, peer, upper)
  {
    if ops != [] {
      var init, last := ops[..|ops| - 1], ops[|ops| - 1];
      InStepBefore(ops, upper);
      ListedIffLastWord(init, channel, peer, upper);
      if last.Restart? {
        RunIsConsistent(init, last.now, upper);
      } else {
        ListedStep(ops, channel, peer, upper);
      }
    }
  }

  // Runs whose restarts may come after a failed write.

  /** The calls that memory reflects, and those that the file reflects. */
  datatype Logs = Logs(mem: seq<Op>, disk: seq<Op>)

  /** A restart rolls back to the calls on file; a write that succeeds puts all calls there. */
  function Surviving(ops: seq<Op>, upper: string -> string): Logs {
    if ops == [] then Logs([], [])
    else
      var init, last := ops[..|ops| - 1], ops[|ops| - 1];
      var before := Surviving(init, upper);
      if last.Restart? then Logs(before.disk, before.disk)
      else
        var mem := before.mem + [last];
        Logs(mem, if Change(After(init, upper).mem, last, upper).1 && last.saved then mem else before.disk)
  }

  predicate NoRestart(ops: seq<Op>) {
    forall i :: 0 <= i < |ops| ==> !ops[i].Restart?
  }

  /** A call other than a restart acts on a memory replayed from a log as it does on that log's end. */
  lemma SurvivorNext(log: seq<Op>, last: Op, mem: Contents, upper: string -> string)
    requires NoRestart(log) && !last.Restart? && After(log, upper).mem == mem
    ensures NoRestart(log + [last]) && After(log + [last], upper).mem == Change(mem, last, upper).0
  {
    assert (log + [last])[..|log|] == log;
  }

  /** Memory and file are what the surviving calls alone make of an empty memory. */
  lemma {:induction false} OnlySurvivorsCount(ops: seq<Op>, upper: string -> string)
    ensures var logs, s := Surviving(ops, upper), After(ops, upper);
            && NoRestart(logs.mem) && NoRestart(logs.disk)
            && s.mem == After(logs.mem, upper).mem && s.disk == After(logs.disk, upper).mem
  {
    if ops != [] {
      var init, last := ops[..|ops| - 1], ops[|ops| - 1];
      OnlySurvivorsCount(init, upper);
      if !last.Restart? {
        SurvivorNext(Surviving(init, upper).mem, last, After(init, upper).mem, upper);
      }
    }
  }

  lemma {:induction false} ListedWithoutRestart(ops: seq<Op>, channel: string, peer: string, upper: string -> string)
    requires NoRestart(ops)
    ensures Lists(After(ops, upper).mem.allowed, channel, peer) <==> LastWordIsApproval(ops, channel, peer, upper)
  {
    if ops != [] {
      ListedWithoutRestart(ops[..|ops| - 1], channel, peer, upper);
      ListedStep(ops, channel, peer, upper);
    }
  }

  /**
   Over every run at all, whatever writes fail and whatever the clock does: a pair is listed exactly
   when the latest approval or revocation of it among the surviving calls was an approval.
   */
  lemma ListedIffSurvivingWord(ops: seq<Op>, channel: string, peer: string, upper: string -> string)
    ensures Lists(After(ops, upper).mem.allowed, channel, peer) <==>
            LastWordIsApproval(Surviving(ops, upper).mem, channel, peer, upper)
  {
    OnlySurvivorsCount(ops, upper);
    ListedWithoutRestart(Surviving(ops, upper).mem, channel, peer, upper);
  }

  /** With pairing required, over every run: allowed exactly when the last surviving word on the pair is an approval. */
  lemma AllowedIffSurvivingWord(
      ops: seq<Op>, channel: string, peer: string, config: Json, envSet: bool, upper: string -> string)
    requires Binds(config, "require_pairing", Bool(true)) || (Undecided(config) && envSet)
    ensures Answer(After(ops, upper).mem.allowed, channel, peer, config, envSet) <==>
            LastWordIsApproval(Surviving(ops, upper).mem, channel, peer, upper)
  {
    SettingDecides(After(ops, upper).mem.allowed, channel, peer, config, envSet);
    ListedIffSurvivingWord(ops, channel, peer, upper);
  }

  // Which approvals succeed.

  /** The call creates this code, or tries to approve it. */
  predicate IsAbout(op: Op, key: string, upper: string -> string) {
    (op.Create? && op.code == key) || (op.Approve? && upper(op.code) == key)
  }

  /** Call j creates the code, and no later call of the log is about it. */
  ghost predicate CreatedLast(log: seq<Op>, j: nat, key: string, upper: string -> string) {
    && j < |log| && log[j].Create? && log[j].code == key
    && forall l :: j < l < |log| ==> !IsAbout(log[l], key, upper)
  }

  lemma CreatedLastStays(log: seq<Op>, last: Op, j: nat, key: string, upper: string -> string)
    requires !IsAbout(last, key, upper)
    ensures CreatedLast(log + [last], j, key, upper) <==> CreatedLast(log, j, key, upper)
  {
    var more := log + [last];
    if CreatedLast(log, j, key, upper) {
      forall l | j < l < |more|
        ensures !IsAbout(more[l], key, upper)
      {
        assert more[l] == if l < |log| then log[l] else last;
      }
    }
    if CreatedLast(more, j, key, upper) {
      assert more[|log|] == last && j < |log|;
      assert forall l :: j < l < |log| ==> more[l] == log[l];
    }
  }

  lemma CreatedLastIsOne(log: seq<Op>, j: nat, k: nat, key: string, upper: string -> string)
    requires CreatedLast(log, j, key, upper) && CreatedLast(log, k, key, upper)
    ensures j == k
  {
    assert IsAbout(log[j], key, upper) && IsAbout(log[k], key, upper);
  }

  /** One call about another code leaves this code's entry alone. */
  lemma EntryStays(mem: Contents, op: Op, key: string, upper: string -> string)
    requires !op.Restart? && !IsAbout(op, key, upper)
    ensures key in Change(mem, op, upper).0.pending <==> key in mem.pending
    ensures key in mem.pending ==> Change(mem, op, upper).0.pending[key] == mem.pending[key]
  {
  }

  /** A code is pending exactly when the last call about it created it, with that call's channel and lifetime. */
  lemma {:induction false} FindCreated(log: seq<Op>, key: string, upper: string -> string) returns (j: Option<nat>)
    requires NoRestart(log)
    ensures j.Some? <==> key in After(log, upper).mem.pending
    ensures j.Some? ==> CreatedLast(log, j.value, key, upper)
    ensures j.Some? ==>
              After(log, upper).mem.pending[key] == PendingPair(log[j.value].channel, log[j.value].now + 900_000)
    ensures j.None? ==> forall k: nat :: !CreatedLast(log, k, key, upper)
  {
    if log == [] {
      j := None;
    } else {
      var init, last := log[..|log| - 1], log[|log| - 1];
      assert log == init + [last];
      if !IsAbout(last, key, upper) {
        j := FindCreated(init, key, upper);
        EntryStays(After(init, upper).mem, last, key, upper);
        forall k: nat
          ensures CreatedLast(log, k, key, upper) <==> CreatedLast(init, k, key, upper)
        {
          CreatedLastStays(init, last, k, key, upper);
        }
      } else if last.Create? {
        j := Some(|init|);
      } else {
        j := None;
        forall k: nat
          ensures !CreatedLast(log, k, key, upper)
        {
          assert IsAbout(log[|init|], key, upper);
        }
      }
    }
  }

  /**
   Over every run: an approval succeeds if and only if, among the calls that survive, the last one about
   its code is a creation at most fifteen minutes ago; it is for that creation's channel.
   */
  lemma ApproveSucceedsIff(ops: seq<Op>, i: nat, channel: string, peer: string, upper: string -> string)
    requires i < |ops| && ops[i].Approve?
    ensures var log := Surviving(ops[..i], upper).mem;
            GrantsPair(ops, i, channel, peer, upper) <==>
            && ops[i].peer == peer
            && exists j: nat :: CreatedLast(log, j, upper(ops[i].code), upper) && log[j].channel == channel
                           && ops[i].now <= log[j].now + 900_000
  {
    OnlySurvivorsCount(ops[..i], upper);
    var log, key := Surviving(ops[..i], upper).mem, upper(ops[i].code);
    var found := FindCreated(log, key, upper);
    forall j: nat | CreatedLast(log, j, key, upper)
      ensures found == Some(j)
    {
      if found.Some? {
        CreatedLastIsOne(log, found.value, j, key, upper);
      }
    }
  }

  /** How many calls of a run create a code, and how many approve one. */
  function Creations(ops: seq<Op>): nat {
    if ops == [] then 0 else Creations(ops[..|ops| - 1]) + if ops[|ops| - 1].Create? then 1 else 0
  }

  function Approvals(ops: seq<Op>, upper: string -> string): nat {
    if ops == [] then 0
    else Approvals(ops[..|ops| - 1], upper) + if Grants(ops, |ops| - 1, upper) then 1 else 0
  }

  /** A code can be approved once: approvals and codes still pending never outnumber the codes created. */
  lemma {:induction false} ApprovalsAreCovered(ops: seq<Op>, upper: string -> string)
    requires RestartsInStep(ops, upper)
    ensures Approvals(ops, upper) + |After(ops, upper).mem.pending| <= Creations(ops)
    ensures !Lags(ops, upper) ==> Approvals(ops, upper) + |After(ops, upper).disk.pending| <= Creations(ops)
  {
    if ops != [] {
      InStepBefore(ops, upper);
      ApprovalsAreCovered(ops[..|ops| - 1], upper);
      PendingSizes(After(ops[..|ops| - 1], upper).mem, ops[|ops| - 1], upper);
    }
  }

  /** Over every run at all the same holds among the surviving calls. */
  lemma SurvivingApprovalsAreCovered(ops: seq<Op>, upper: string -> string)
    ensures var log := Surviving(ops, upper).mem;
            Approvals(log, upper) + |After(ops, upper).mem.pending| <= Creations(log)
  {
    OnlySurvivorsCount(ops, upper);
    ApprovalsAreCovered(Surviving(ops, upper).mem, upper);
  }

  lemma SizeWith(m: map<string, PendingPair>, key: string, entry: PendingPair)
    ensures |m[key := entry]| <= |m| + 1
  {
    assert m[key := entry].Keys == m.Keys + {key};
    assert |m[key := entry].Keys| <= |m.Keys| + 1;
  }

  lemma SizeWithout(m: map<string, PendingPair>, key: string)
    requires key in m
    ensures |m - {key}| == |m| - 1
  {
    assert m.Keys == (m - {key}).Keys + {key};
    assert |m.Keys| == |(m - {key}).Keys| + 1;
  }

  /** Creating adds at most one pending code, approving takes one away, revoking none. */
  lemma PendingSizes(mem: Contents, op: Op, upper: string -> string)
    ensures var (mem', writes) := Change(mem, op, upper);
            && (op.Create? ==> |mem'.pending| <= |mem.pending| + 1)
            && (op.Revoke? ==> mem'.pending == mem.pending)
            && (op.Approve? ==>
                 writes == Usable(mem, upper(op.code), op.now) && |mem'.pending| + (if writes then 1 else 0) <= |mem.pending|)
  {
    if op.Create? {
      SizeWith(mem.pending, op.code, PendingPair(op.channel, op.now + CODE_LIFETIME));
    } else if op.Approve? && upper(op.code) in mem.pending {
      SizeWithout(mem.pending, upper(op.code));
    }
  }

  predicate Creates(op: Op, code: string, entry: PendingPair) {
    op.Create? && op.channel == entry.channel && op.code == code && op.now + CODE_LIFETIME == entry.expiresAt
  }

  /** The entry stems from a creation in this run. */
  ghost predicate Created(ops: seq<Op>, code: string, entry: PendingPair) {
    exists i :: 0 <= i < |ops| && Creates(ops[i], code, entry)
  }

  ghost predicate AllCreated(ops: seq<Op>, c: Contents) {
    forall code :: code in c.pending ==> Created(ops, code, c.pending[code])
  }

  lemma CreatedStays(ops: seq<Op>, op: Op, c: Contents)
    requires AllCreated(ops, c)
    ensures AllCreated(ops + [op], c)
  {
    forall code | code in c.pending
      ensures Created(ops + [op], code, c.pending[code])
    {
      var i :| 0 <= i < |ops| && Creates(ops[i], code, c.pending[code]);
      assert (ops + [op])[i] == ops[i];
    }
  }

  /** One call adds no entry but the one it creates. */
  lemma CreatedNext(ops: seq<Op>, op: Op, mem: Contents, upper: string -> string)
    requires AllCreated(ops, mem)
    ensures AllCreated(ops + [op], Change(mem, op, upper).0)
  {
    CreatedStays(ops, op, mem);
    if op.Create? {
      assert Creates((ops + [op])[|ops|], op.code, PendingPair(op.channel, op.now + CODE_LIFETIME));
      assert Created(ops + [op], op.code, PendingPair(op.channel, op.now + CODE_LIFETIME));
    }
  }

  lemma {:induction false} EntriesWereCreated(ops: seq<Op>, upper: string -> string)
    ensures AllCreated(ops, After(ops, upper).mem) && AllCreated(ops, After(ops, upper).disk)
  {
    if ops != [] {
      var init, last := ops[..|ops| - 1], ops[|ops| - 1];
      var s := After(init, upper);
      EntriesWereCreated(init, upper);
      assert ops == init + [last];
      CreatedStays(init, last, s.disk);
      CreatedNext(init, last, s.mem, upper);
    }
  }

  /** Every approval that succeeds comes at most fifteen minutes after a creation of that code for that channel. */
  lemma ApprovedInTime(ops: seq<Op>, i: nat, channel: string, peer: string, upper: string -> string)
    requires Ordered(ops) && i < |ops| && GrantsPair(ops, i, channel, peer, upper)
    ensures exists j :: 0 <= j < i && ops[j].Create? && ops[j].channel == channel && ops[j].code == upper(ops[i].code)
                        && ops[j].now <= ops[i].now <= ops[j].now + 900_000
  {
    var before := ops[..i];
    var key := upper(ops[i].code);
    var entry := After(before, upper).mem.pending[key];
    EntriesWereCreated(before, upper);
    assert Created(before, key, entry);
    var j :| 0 <= j < |before| && Creates(before[j], key, entry);
    assert ops[j] == before[j];
  }
}
