/** Recognising a car by its CAN traffic (selfdrive/car/car_helpers.py, selfdrive/car/fingerprints.py). */
module CanFingerprint {
  import opened Helpers

  // ---------------------------------------------------------------------------------------------
  // Which cars could have sent a message

  /** A CAN message; only the length of its data matters. */
  datatype Message = Message(src: nat, address: nat, length: nat)

  datatype Car = Car(name: string)

  /** The known variants of each car: for each address, the length of its messages. */
  type Database = map<Car, seq<map<nat, nat>>>

  /** `_DEBUG_ADDRESS` */
  const DEBUG_ADDRESS := 1880
  const DEBUG_LENGTH := 8

  /** Addresses of more than 11 bits */
  const EXTENDED := 0x800

  const FRAME_FINGERPRINT := 100

  /** `is_valid_for_fingerprint`, with the debug address added. */
  predicate FitsVariant(m: Message, variant: map<nat, nat>) {
    var v := variant[DEBUG_ADDRESS := DEBUG_LENGTH];
    (m.address in v && v[m.address] == m.length) || m.address >= EXTENDED
  }

  function Variants(db: Database, car: Car): seq<map<nat, nat>> {
    if car in db then db[car] else []
  }

  predicate Fits(db: Database, car: Car, m: Message) {
    exists i :: 0 <= i < |Variants(db, car)| && FitsVariant(m, Variants(db, car)[i])
  }

  predicate FitsAll(db: Database, car: Car, messages: seq<Message>) {
    forall i :: 0 <= i < |messages| ==> Fits(db, car, messages[i])
  }

  /** The cars, in their order, that could have sent all the messages. */
  function Survivors(db: Database, cars: seq<Car>, messages: seq<Message>): (s: seq<Car>) {
    if cars == [] then []
    else
      var n := |cars| - 1;
      Survivors(db, cars[..n], messages) + if FitsAll(db, cars[n], messages) then [cars[n]] else []
  }

  lemma {:induction false} SurvivorsExactly(db: Database, cars: seq<Car>, messages: seq<Message>, car: Car)
    ensures car in Survivors(db, cars, messages) <==> car in cars && FitsAll(db, car, messages)
  {
    if cars != [] {
      SurvivorsExactly(db, cars[..|cars| - 1], messages, car);
      assert cars == cars[..|cars| - 1] + [cars[|cars| - 1]];
    }
  }

  lemma {:induction false} NoMessages(db: Database, cars: seq<Car>)
    ensures Survivors(db, cars, []) == cars
  {
    if cars != [] {
      NoMessages(db, cars[..|cars| - 1]);
    }
  }

  lemma FitsAllNext(db: Database, car: Car, messages: seq<Message>, m: Message)
    ensures FitsAll(db, car, messages + [m]) <==> FitsAll(db, car, messages) && Fits(db, car, m)
    ensures FitsAll(db, car, [m]) <==> Fits(db, car, m)
  {
    var all := messages + [m];
    if FitsAll(db, car, all) {
      assert forall i :: 0 <= i < |messages| ==> all[i] == messages[i];
      assert all[|messages|] == m;
    }
    assert [m][0] == m;
  }

  /** Eliminating by one more message is eliminating by all of them. */
  lemma {:induction false} EliminateNext(db: Database, cars: seq<Car>, messages: seq<Message>, m: Message)
    ensures Survivors(db, Survivors(db, cars, messages), [m]) == Survivors(db, cars, messages + [m])
  {
    if cars != [] {
      var n := |cars| - 1;
      var before := Survivors(db, cars[..n], messages);
      EliminateNext(db, cars[..n], messages, m);
      FitsAllNext(db, cars[n], messages, m);
      if FitsAll(db, cars[n], messages) {
        assert (before + [cars[n]])[..|before|] == before;
      } else {
        assert before + [] == before;
      }
    }
  }

  /** Who survives does not depend on the order of the messages, nor on repeated ones. */
  lemma {:induction false} OrderDoesNotMatter(db: Database, cars: seq<Car>, a: seq<Message>, b: seq<Message>)
    requires forall m :: m in a <==> m in b
    ensures Survivors(db, cars, a) == Survivors(db, cars, b)
  {
    if cars != [] {
      var car := cars[|cars| - 1];
      OrderDoesNotMatter(db, cars[..|cars| - 1], a, b);
      assert FitsAll(db, car, a) <==> forall m :: m in a ==> Fits(db, car, m);
      assert FitsAll(db, car, b) <==> forall m :: m in b ==> Fits(db, car, m);
    }
  }

  /** A message on the debug address fits a known car exactly if its length is the debug length, whatever the database says
      about that address. */
  lemma DebugAddressOverrides(db: Database, car: Car, src: nat, length: nat)
    requires Variants(db, car) != []
    ensures Fits(db, car, Message(src, DEBUG_ADDRESS, length)) <==> length == DEBUG_LENGTH
  {
    assert FitsVariant(Message(src, DEBUG_ADDRESS, length), Variants(db, car)[0]) <==> length == DEBUG_LENGTH;
  }

  /** `eliminate_incompatible_cars` */
  method EliminateIncompatibleCars(db: Database, m: Message, cars: seq<Car>) returns (compatible: seq<Car>)
    requires forall c :: c in cars ==> c in db
    ensures compatible == Survivors(db, cars, [m])
    ensures forall c :: c in compatible ==> c in db
  {
    compatible := [];
    for k := 0 to |cars|
      invariant compatible == Survivors(db, cars[..k], [m])
      invariant forall c :: c in compatible ==> c in db
    {
      assert cars[..k + 1][..k] == cars[..k];
      FitsAllNext(db, cars[k], [], m);
      var variants := db[cars[k]];
      for i := 0 to |variants|
        invariant compatible == Survivors(db, cars[..k], [m])
        invariant forall j :: 0 <= j < i ==> !FitsVariant(m, variants[j])
      {
        if FitsVariant(m, variants[i]) {
          assert FitsVariant(m, Variants(db, cars[k])[i]);
          compatible := compatible + [cars[k]];
          break;
        }
      }
    }
    assert cars[..|cars|] == cars;
  }

  // ---------------------------------------------------------------------------------------------
  // What is considered on each bus

  const BUSES := 2

  /** A message that takes part in the elimination on a bus: no extended one, and no VIN query or its responses. */
  predicate Considered(m: Message, bus: nat) {
    m.src == bus && m.address < EXTENDED && m.address != 0x7df && m.address != 0x7e0 && m.address != 0x7e8
  }

  function Seen(messages: seq<Message>, bus: nat): seq<Message> {
    if messages == [] then []
    else
      var n := |messages| - 1;
      Seen(messages[..n], bus) + if Considered(messages[n], bus) then [messages[n]] else []
  }

  lemma {:induction false} SeenExactly(messages: seq<Message>, bus: nat, m: Message)
    ensures m in Seen(messages, bus) <==> m in messages && Considered(m, bus)
  {
    if messages != [] {
      SeenExactly(messages[..|messages| - 1], bus, m);
      assert messages == messages[..|messages| - 1] + [messages[|messages| - 1]];
    }
  }

  /** The cars left on a bus after some messages: those that fit all that was considered. */
  function Candidates(db: Database, cars: seq<Car>, messages: seq<Message>, bus: nat): seq<Car> {
    Survivors(db, cars, Seen(messages, bus))
  }

  lemma SeenNext(messages: seq<Message>, m: Message, bus: nat)
    ensures Seen(messages + [m], bus) == if Considered(m, bus) then Seen(messages, bus) + [m] else Seen(messages, bus)
  {
    assert (messages + [m])[..|messages|] == messages;
  }

  lemma CandidatesNext(db: Database, cars: seq<Car>, messages: seq<Message>, m: Message, bus: nat)
    ensures Candidates(db, cars, messages + [m], bus) ==
      if Considered(m, bus) then Survivors(db, Candidates(db, cars, messages, bus), [m])
      else Candidates(db, cars, messages, bus)
  {
    SeenNext(messages, m, bus);
    EliminateNext(db, cars, Seen(messages, bus), m);
  }

  /** A car is left on a bus exactly when it is known and every considered message fits one of its variants, in whatever
      order, and in whatever packets, the messages came. */
  lemma CandidatesExactly(db: Database, cars: seq<Car>, messages: seq<Message>, bus: nat, car: Car)
    ensures car in Candidates(db, cars, messages, bus) <==>
      car in cars && forall m :: m in messages && IsEvidence(m, bus) ==> IsSentBy(db, car, m.address, m.length)
  {
    var seen := Seen(messages, bus);
    SurvivorsExactly(db, cars, seen, car);
    forall m
      ensures m in seen <==> m in messages && Considered(m, bus)
    {
      SeenExactly(messages, bus, m);
    }
    assert FitsAll(db, car, seen) <==> forall m :: m in seen ==> Fits(db, car, m);
    forall m
      ensures Considered(m, bus) <==> IsEvidence(m, bus)
      ensures IsEvidence(m, bus) ==> (Fits(db, car, m) <==> IsSentBy(db, car, m.address, m.length))
    {
      FitsExactly(db, car, m);
    }
  }

  /** A message from the bus on an address of at most 11 bits that is not used for VIN queries. */
  predicate IsEvidence(m: Message, bus: nat) {
    m.src == bus && m.address <= 0x7ff && m.address !in {0x7df, 0x7e0, 0x7e8}
  }

  /** Some known variant of the car sends messages of this length on the address; on address 1880 every one does, of length 8
      and no other. */
  ghost predicate IsSentBy(db: Database, car: Car, address: nat, length: nat) {
    car in db && exists i :: 0 <= i < |db[car]| && Sends(db[car][i], address, length)
  }

  predicate Sends(variant: map<nat, nat>, address: nat, length: nat) {
    if address == 1880 then length == 8 else address in variant && variant[address] == length
  }

  lemma FitsExactly(db: Database, car: Car, m: Message)
    ensures m.address <= 0x7ff ==> (Fits(db, car, m) <==> IsSentBy(db, car, m.address, m.length))
  {
    if m.address <= 0x7ff {
      forall i | 0 <= i < |Variants(db, car)|
        ensures FitsVariant(m, Variants(db, car)[i]) <==> Sends(Variants(db, car)[i], m.address, m.length)
      {
      }
      if IsSentBy(db, car, m.address, m.length) {
        var i :| 0 <= i < |db[car]| && Sends(db[car][i], m.address, m.length);
        assert FitsVariant(m, Variants(db, car)[i]);
      }
    }
  }

  lemma ArrivalOrderDoesNotMatter(db: Database, cars: seq<Car>, a: seq<Message>, b: seq<Message>, bus: nat)
    requires forall m :: m in a <==> m in b
    ensures Candidates(db, cars, a, bus) == Candidates(db, cars, b, bus)
  {
    forall m
      ensures m in Seen(a, bus) <==> m in Seen(b, bus)
    {
      SeenExactly(a, bus, m);
      SeenExactly(b, bus, m);
    }
    OrderDoesNotMatter(db, cars, Seen(a, bus), Seen(b, bus));
  }

  // ---------------------------------------------------------------------------------------------
  // The lengths remembered for the car interface

  type Finger = map<nat, map<nat, nat>>

  function Record(finger: Finger, m: Message): Finger {
    if m.src < 128
    then finger[m.src := (if m.src in finger then finger[m.src] else map[])[m.address := m.length]]
    else finger
  }

  /** `gen_empty_fingerprint` */
  function EmptyFinger(): Finger {
    map[0 := map[], 1 := map[], 2 := map[], 3 := map[], 4 := map[], 5 := map[], 6 := map[], 7 := map[]]
  }

  function Remembered(messages: seq<Message>): Finger {
    if messages == [] then EmptyFinger()
    else Record(Remembered(messages[..|messages| - 1]), messages[|messages| - 1])
  }

  function Length(finger: Finger, src: nat, address: nat): Option<nat> {
    if src in finger && address in finger[src] then Some(finger[src][address]) else None
  }

  /** The last message from a bus and an address. */
  function LastLength(messages: seq<Message>, src: nat, address: nat): Option<nat> {
    if messages == [] then None
    else
      var m := messages[|messages| - 1];
      if m.src == src && m.address == address then Some(m.length)
      else LastLength(messages[..|messages| - 1], src, address)
  }

  /** For every real bus the length of the last message on each address is remembered, and nothing else. */
  lemma {:induction false} RemembersLastLength(messages: seq<Message>, src: nat, address: nat)
    ensures Length(Remembered(messages), src, address) == if src < 128 then LastLength(messages, src, address) else None
  {
    if messages != [] {
      RemembersLastLength(messages[..|messages| - 1], src, address);
    }
  }

  // ---------------------------------------------------------------------------------------------
  // The loop

  /** All messages of the first packets. */
  function Received(packets: nat -> seq<Message>, count: nat): seq<Message> {
    if count == 0 then [] else Received(packets, count - 1) + packets(count - 1)
  }

  /** What was received is what is in the packets. */
  lemma {:induction false} ReceivedExactly(packets: nat -> seq<Message>, count: nat, m: Message)
    ensures m in Received(packets, count) <==> exists k :: 0 <= k < count && m in packets(k)
  {
    if count > 0 {
      ReceivedExactly(packets, count - 1, m);
      assert m in packets(count - 1) ==> exists k :: 0 <= k < count && m in packets(k);
    }
  }

  /** The packets come one behind the other. */
  lemma {:induction false} ReceivedInOrder(packets: nat -> seq<Message>, count: nat, k: nat) returns (later: seq<Message>)
    requires k < count
    ensures Received(packets, count) == Received(packets, k) + packets(k) + later
    ensures forall m :: m in later <==> exists j :: k < j < count && m in packets(j)
    decreases count
  {
    if k == count - 1 {
      later := [];
    } else {
      var before := ReceivedInOrder(packets, count - 1, k);
      later := before + packets(count - 1);
      assert Received(packets, count) == Received(packets, k) + packets(k) + later;
    }
  }

  /** The car that is found after a packet: the only one left on a bus, the second bus going first. */
  function Found(db: Database, cars: seq<Car>, messages: seq<Message>, frame: nat): Option<Car> {
    var c0, c1 := Candidates(db, cars, messages, 0), Candidates(db, cars, messages, 1);
    if frame <= FRAME_FINGERPRINT then None
    else if |c1| == 1 then Some(c1[0])
    else if |c0| == 1 then Some(c0[0])
    else None
  }

  predicate Failed(db: Database, cars: seq<Car>, messages: seq<Message>, frame: nat) {
    || (Candidates(db, cars, messages, 0) == [] && Candidates(db, cars, messages, 1) == [] && frame > FRAME_FINGERPRINT)
    || frame > 200
  }

  predicate Stops(db: Database, cars: seq<Car>, messages: seq<Message>, frame: nat) {
    Failed(db, cars, messages, frame) || Found(db, cars, messages, frame).Some?
  }

  ghost predicate AreCandidates(db: Database, cars: seq<Car>, messages: seq<Message>, candidates: seq<seq<Car>>) {
    |candidates| == BUSES && forall b :: 0 <= b < BUSES ==> candidates[b] == Candidates(db, cars, messages, b)
  }

  lemma CandidatesAreKnown(db: Database, cars: seq<Car>, messages: seq<Message>, bus: nat)
    requires forall c :: c in cars ==> c in db
    ensures forall c :: c in Candidates(db, cars, messages, bus) ==> c in db
  {
    forall c | c in Candidates(db, cars, messages, bus)
      ensures c in db
    {
      SurvivorsExactly(db, cars, Seen(messages, bus), c);
    }
  }

  method ConsiderOnBus(db: Database, ghost cars: seq<Car>, ghost before: seq<Message>, m: Message, bus: nat,
                       candidates: seq<Car>)
    returns (left: seq<Car>)
    requires candidates == Candidates(db, cars, before, bus) && forall c :: c in cars ==> c in db
    ensures left == Candidates(db, cars, before + [m], bus)
  {
    left := candidates;
    CandidatesNext(db, cars, before, m, bus);
    CandidatesAreKnown(db, cars, before, bus);
    if m.src == bus && m.address < EXTENDED && m.address !in {0x7df, 0x7e0, 0x7e8} {
      left := EliminateIncompatibleCars(db, m, candidates);
    }
  }

  /** One message. */
  method Consider(db: Database, ghost cars: seq<Car>, ghost before: seq<Message>, m: Message, candidates: seq<seq<Car>>)
    returns (left: seq<seq<Car>>)
    requires AreCandidates(db, cars, before, candidates) && forall c :: c in cars ==> c in db
    ensures AreCandidates(db, cars, before + [m], left)
  {
    left := candidates;
    for b := 0 to BUSES
      invariant |left| == BUSES
      invariant forall i :: 0 <= i < b ==> left[i] == Candidates(db, cars, before + [m], i)
      invariant forall i :: b <= i < BUSES ==> left[i] == Candidates(db, cars, before, i)
    {
      var compatible := ConsiderOnBus(db, cars, before, m, b, left[b]);
      left := left[b := compatible];
    }
  }

  /** One packet. */
  method Process(db: Database, ghost cars: seq<Car>, ghost before: seq<Message>, packet: seq<Message>,
                 candidates: seq<seq<Car>>, finger: Finger)
    returns (left: seq<seq<Car>>, finger': Finger)
    requires AreCandidates(db, cars, before, candidates) && finger == Remembered(before)
    requires forall c :: c in cars ==> c in db
    ensures AreCandidates(db, cars, before + packet, left) && finger' == Remembered(before + packet)
  {
    left, finger' := candidates, finger;
    assert before + packet[..0] == before;
    for i := 0 to |packet|
      invariant AreCandidates(db, cars, before + packet[..i], left) && finger' == Remembered(before + packet[..i])
    {
      var m := packet[i];
      ghost var seen := before + packet[..i];
      assert before + packet[..i + 1] == seen + [m];
      assert (seen + [m])[..|seen|] == seen;
      finger' := Record(finger', m);
      left := Consider(db, cars, seen, m, left);
    }
    assert packet[..|packet|] == packet;
  }

  /** What is decided after a packet. */
  method Decide(db: Database, ghost cars: seq<Car>, ghost messages: seq<Message>, candidates: seq<seq<Car>>, frame: nat)
    returns (car: Option<Car>, done: bool)
    requires AreCandidates(db, cars, messages, candidates)
    ensures car == Found(db, cars, messages, frame) && (done <==> Stops(db, cars, messages, frame))
  {
    car := None;
    for b := 0 to BUSES
      invariant car == if frame <= FRAME_FINGERPRINT then None
        else if b > 1 && |candidates[1]| == 1 then Some(candidates[1][0])
        else if b > 0 && |candidates[0]| == 1 then Some(candidates[0][0])
        else None
    {
      if |candidates[b]| == 1 && frame > FRAME_FINGERPRINT {
        car := Some(candidates[b][0]);
      }
    }
    var failed := (candidates[0] == [] && candidates[1] == [] && frame > FRAME_FINGERPRINT) || frame > 200;
    done := failed || car.Some?;
  }

  predicate StopsAt(db: Database, cars: seq<Car>, packets: nat -> seq<Message>, frame: nat) {
    Stops(db, cars, Received(packets, frame + 1), frame)
  }

  function StopsOf(db: Database, cars: seq<Car>, packets: nat -> seq<Message>): nat -> bool {
    (k: nat) => StopsAt(db, cars, packets, k)
  }

  /** Nothing is decided before a packet. */
  ghost predicate RunsUntil(stops: nat -> bool, frame: nat) {
    frame == 0 || (RunsUntil(stops, frame - 1) && !stops(frame - 1))
  }

  lemma {:induction false} RunsUntilExactly(stops: nat -> bool, frame: nat)
    ensures RunsUntil(stops, frame) <==> forall k: nat :: k < frame ==> !stops(k)
  {
    if frame > 0 {
      RunsUntilExactly(stops, frame - 1);
    }
  }

  lemma StopsInTime(db: Database, cars: seq<Car>, packets: nat -> seq<Message>, frame: nat)
    ensures StopsAt(db, cars, packets, frame) ==> frame > FRAME_FINGERPRINT
    ensures frame > 200 ==> StopsAt(db, cars, packets, frame)
  {
  }

  lemma AtStart(db: Database, cars: seq<Car>, packets: nat -> seq<Message>)
    ensures AreCandidates(db, cars, Received(packets, 0), [cars, cars]) && EmptyFinger() == Remembered(Received(packets, 0))
  {
    NoMessages(db, cars);
  }

  /** One round of the loop; `stops` tells in which rounds it is left. */
  method Round(db: Database, ghost cars: seq<Car>, packets: nat -> seq<Message>, ghost stops: nat -> bool, frame: nat,
               candidates: seq<seq<Car>>, finger: Finger)
    returns (left: seq<seq<Car>>, finger': Finger, car: Option<Car>, done: bool)
    requires forall c :: c in cars ==> c in db
    requires forall k: nat {:trigger StopsAt(db, cars, packets, k)} :: stops(k) <==> StopsAt(db, cars, packets, k)
    requires AreCandidates(db, cars, Received(packets, frame), candidates) && finger == Remembered(Received(packets, frame))
    ensures AreCandidates(db, cars, Received(packets, frame + 1), left)
    ensures finger' == Remembered(Received(packets, frame + 1))
    ensures car == Found(db, cars, Received(packets, frame + 1), frame) && (done <==> stops(frame))
    ensures (done ==> frame > FRAME_FINGERPRINT) && (!done ==> frame < 201)
  {
    ghost var before := Received(packets, frame);
    left, finger' := Process(db, cars, before, packets(frame), candidates, finger);
    assert Received(packets, frame + 1) == before + packets(frame);
    car, done := Decide(db, cars, Received(packets, frame + 1), left, frame);
    StopsInTime(db, cars, packets, frame);
    assert StopsAt(db, cars, packets, frame) <==> done;
  }

  method Rounds(db: Database, cars: seq<Car>, packets: nat -> seq<Message>, ghost stops: nat -> bool)
    returns (car: Option<Car>, finger: Finger, frame: nat)
    requires forall c :: c in cars ==> c in db
    requires forall k: nat {:trigger StopsAt(db, cars, packets, k)} :: stops(k) <==> StopsAt(db, cars, packets, k)
    ensures FRAME_FINGERPRINT < frame <= 201
    ensures stops(frame) && RunsUntil(stops, frame)
    ensures car == Found(db, cars, Received(packets, frame + 1), frame)
    ensures finger == Remembered(Received(packets, frame + 1))
  {
    finger := EmptyFinger();
    var candidates := [cars, cars];
    AtStart(db, cars, packets);
    frame := 0;
    while true
      invariant frame <= 201 && RunsUntil(stops, frame)
      invariant AreCandidates(db, cars, Received(packets, frame), candidates) && finger == Remembered(Received(packets, frame))
      decreases 201 - frame
    {
      var done;
      candidates, finger, car, done := Round(db, cars, packets, stops, frame, candidates, finger);
      if done {
        break;
      }
      frame := frame + 1;
    }
  }

  /** `can_fingerprint`: it stops at the first packet that decides, the 202nd at the latest and never before the 102nd. */
  method CanFingerprint(db: Database, cars: seq<Car>, packets: nat -> seq<Message>)
    returns (car: Option<Car>, finger: Finger, frame: nat)
    requires forall c :: c in cars ==> c in db
    ensures FRAME_FINGERPRINT < frame <= 201
    ensures StopsOf(db, cars, packets)(frame) && forall k: nat :: k < frame ==> !StopsOf(db, cars, packets)(k)
    ensures car == Found(db, cars, Received(packets, frame + 1), frame)
    ensures finger == Remembered(Received(packets, frame + 1))
  {
    car, finger, frame := Rounds(db, cars, packets, StopsOf(db, cars, packets));
    RunsUntilExactly(StopsOf(db, cars, packets), frame);
  }

  // ---------------------------------------------------------------------------------------------
  // What a result means

  lemma {:induction false} NoDuplicates(db: Database, cars: seq<Car>, messages: seq<Message>, i: nat, j: nat)
    requires i < j < |Survivors(db, cars, messages)|
    requires forall a, b :: 0 <= a < b < |cars| ==> cars[a] != cars[b]
    ensures Survivors(db, cars, messages)[i] != Survivors(db, cars, messages)[j]
  {
    var n := |cars| - 1;
    var before := Survivors(db, cars[..n], messages);
    if j < |before| {
      NoDuplicates(db, cars[..n], messages, i, j);
    } else {
      SurvivorsExactly(db, cars[..n], messages, before[i]);
    }
  }

  /** The car is known, and every considered message fits one of its variants. */
  ghost predicate CouldBe(db: Database, cars: seq<Car>, messages: seq<Message>, bus: nat, car: Car) {
    car in cars && forall m :: m in messages && IsEvidence(m, bus) ==> IsSentBy(db, car, m.address, m.length)
  }

  ghost predicate OnlyOne(db: Database, cars: seq<Car>, messages: seq<Message>, bus: nat, car: Car) {
    forall c :: CouldBe(db, cars, messages, bus, c) <==> c == car
  }

  lemma OnlyElement(s: seq<Car>, car: Car)
    requires forall a, b :: 0 <= a < b < |s| ==> s[a] != s[b]
    ensures s == [car] <==> forall c :: c in s <==> c == car
  {
    assert s == [car] ==> forall c :: c in s <==> c == car;
    if forall c :: c in s <==> c == car {
      assert car in s;
      var i :| 0 <= i < |s| && s[i] == car;
      var j := if i == 0 then 1 else 0;
      assert j < |s| ==> s[j] in s;
    }
  }

  lemma SoleSurvivor(db: Database, cars: seq<Car>, messages: seq<Message>, bus: nat, car: Car)
    requires forall a, b :: 0 <= a < b < |cars| ==> cars[a] != cars[b]
    ensures OnlyOne(db, cars, messages, bus, car) <==> Candidates(db, cars, messages, bus) == [car]
  {
    var left := Candidates(db, cars, messages, bus);
    forall c
      ensures c in left <==> CouldBe(db, cars, messages, bus, c)
    {
      CandidatesExactly(db, cars, messages, bus, c);
    }
    forall a, b | 0 <= a < b < |left|
      ensures left[a] != left[b]
    {
      NoDuplicates(db, cars, Seen(messages, bus), a, b);
    }
    OnlyElement(left, car);
  }

  /** A car is found exactly when, after frame 100, it is the only one left on bus 1, or the only one left on bus 0 while more
      than one or none is left on bus 1. */
  lemma FoundExactlyWhen(db: Database, cars: seq<Car>, messages: seq<Message>, frame: nat, car: Car)
    requires forall a, b :: 0 <= a < b < |cars| ==> cars[a] != cars[b]
    ensures Found(db, cars, messages, frame) == Some(car) <==>
      && frame > 100
      && (|| OnlyOne(db, cars, messages, 1, car)
          || (OnlyOne(db, cars, messages, 0, car) && !exists c :: OnlyOne(db, cars, messages, 1, c)))
  {
    SoleSurvivor(db, cars, messages, 0, car);
    SoleSurvivor(db, cars, messages, 1, car);
    forall c
      ensures OnlyOne(db, cars, messages, 1, c) <==> Candidates(db, cars, messages, 1) == [c]
    {
      SoleSurvivor(db, cars, messages, 1, c);
    }
    var c1 := Candidates(db, cars, messages, 1);
    if |c1| == 1 {
      assert c1 == [c1[0]];
    }
  }

  /** The loop is left exactly when, after frame 100, some car is the only one left on a bus or no car is left on either, and
      after frame 200 in any case. */
  lemma StopsExactlyWhen(db: Database, cars: seq<Car>, messages: seq<Message>, frame: nat)
    requires forall a, b :: 0 <= a < b < |cars| ==> cars[a] != cars[b]
    ensures Stops(db, cars, messages, frame) <==>
      || frame > 200
      || (frame > 100 &&
          (|| (exists c :: OnlyOne(db, cars, messages, 0, c) || OnlyOne(db, cars, messages, 1, c))
           || (forall c :: !CouldBe(db, cars, messages, 0, c) && !CouldBe(db, cars, messages, 1, c))))
  {
    NoneLeft(db, cars, messages, 0);
    NoneLeft(db, cars, messages, 1);
    OneLeft(db, cars, messages, 0);
    OneLeft(db, cars, messages, 1);
  }

  lemma NoneLeft(db: Database, cars: seq<Car>, messages: seq<Message>, bus: nat)
    ensures Candidates(db, cars, messages, bus) == [] <==> forall c :: !CouldBe(db, cars, messages, bus, c)
  {
    var left := Candidates(db, cars, messages, bus);
    forall c
      ensures c in left <==> CouldBe(db, cars, messages, bus, c)
    {
      CandidatesExactly(db, cars, messages, bus, c);
    }
    assert left != [] ==> left[0] in left;
  }

  lemma OneLeft(db: Database, cars: seq<Car>, messages: seq<Message>, bus: nat)
    requires forall a, b :: 0 <= a < b < |cars| ==> cars[a] != cars[b]
    ensures |Candidates(db, cars, messages, bus)| == 1 <==> exists c :: OnlyOne(db, cars, messages, bus, c)
  {
    var left := Candidates(db, cars, messages, bus);
    forall c
      ensures OnlyOne(db, cars, messages, bus, c) <==> left == [c]
    {
      SoleSurvivor(db, cars, messages, bus, c);
    }
    assert |left| == 1 ==> left == [left[0]];
  }
}
