/** The pool-configuration handlers of scripts/main.js. They work on the
    page's global `storage`, here a parameter, and read their inputs from the
    page, here parameters too: a number parsed from a form field is an
    `Option<int>` with `None` for NaN. Where the source asks `confirm` first,
    the confirmed path is modelled. A handler that would stop on a TypeError
    before changing anything reports failure and leaves the storage as it was. */
module Admin {
  import opened Wrappers
  import opened Prizes
  import opened Selection
  import opened PrizeStorage

  /** How an attempt to add a catalog prize to a wheel ends. */
  datatype AddOutcome = Added | NoPrizeChosen | UnknownPrize | NoSuchWheel | AlreadyInWheel

  /** What the `prompt` of `editFragmentCount` gives back: cancelled (null),
      or a text parsed as `parseInt` does. */
  datatype PromptAnswer = Cancelled | Entered(count: Option<int>)

  /** `entries.some(p => p.id === id)`. */
  predicate HasEntry(entries: seq<WheelPrize>, id: int) {
    exists i :: 0 <= i < |entries| && entries[i].id == id
  }

  /** No two entries of a wheel share an id. */
  ghost predicate UniqueIds(entries: seq<WheelPrize>) {
    forall i, j :: 0 <= i < j < |entries| ==> entries[i].id != entries[j].id
  }

  /** The entry pushed for a catalog prize: its id, name and flags, with the weight given. */
  function EntryFor(prize: Prize, weight: int): (e: WheelPrize)
    ensures e.weight == weight
    ensures Prize(e.id, e.name, e.fragmentCount, e.notCounted) == prize
  {
    WheelPrize(prize.id, prize.name, weight, prize.notCounted, prize.fragmentCount)
  }

  /** Pushing an entry whose id is not yet in the wheel keeps the ids unique. */
  lemma PushKeepsUnique(entries: seq<WheelPrize>, e: WheelPrize)
    requires UniqueIds(entries) && !HasEntry(entries, e.id)
    ensures UniqueIds(entries + [e])
    ensures HasEntry(entries + [e], e.id)
  {
    assert (entries + [e])[|entries|] == e;
  }

  // ---------------------------------------------------------------------------
  // removePrize (scripts/main.js:152-170)

  /** The wheels once every entry with that id is filtered out of each. */
  function Cascade(wheels: seq<Wheel>, id: int): (r: seq<Wheel>)
    ensures |r| == |wheels|
    ensures forall i :: 0 <= i < |wheels| ==>
              r[i].id == wheels[i].id && r[i].requiredSpins == wheels[i].requiredSpins && |r[i].prizes| <= |wheels[i].prizes|
  {
    seq(|wheels|, i requires 0 <= i < |wheels| => wheels[i].(prizes := Without(wheels[i].prizes, EntryId, id)))
  }

  /** After the cascade no wheel holds the id, every other entry is still in its
      wheel, and the wheels keep their ids and thresholds. */
  lemma CascadeRemovesEverywhere(wheels: seq<Wheel>, id: int)
    ensures |Cascade(wheels, id)| == |wheels|
    ensures forall i :: 0 <= i < |wheels| ==>
              Cascade(wheels, id)[i].id == wheels[i].id && Cascade(wheels, id)[i].requiredSpins == wheels[i].requiredSpins
    ensures forall i, e :: 0 <= i < |wheels| ==>
              (e in Cascade(wheels, id)[i].prizes <==> e in wheels[i].prizes && e.id != id)
  {
    forall i | 0 <= i < |wheels| {
      WithoutMembers(wheels[i].prizes, EntryId, id);
    }
  }

  /** `removePrize`: removes the id from every wheel, then from the catalog. */
  method RemovePrize(storage: Storage, prizeId: int)
    requires storage.Valid()
    modifies storage
    ensures storage.Valid()
    ensures storage.wheelSettings == Cascade(old(storage.wheelSettings), prizeId)
    ensures storage.prizes == Without(old(storage.prizes), PrizeId, prizeId)
    ensures storage.userData == old(storage.userData) && storage.currentUser == old(storage.currentUser)
  {
    for index := 0 to |storage.wheelSettings|
      invariant storage.Valid()
      invariant storage.prizes == old(storage.prizes)
      invariant storage.userData == old(storage.userData) && storage.currentUser == old(storage.currentUser)
      invariant forall j :: 0 <= j < index ==>
                  storage.wheelSettings[j] == Cascade(old(storage.wheelSettings), prizeId)[j]
      invariant forall j :: index <= j < |storage.wheelSettings| ==>
                  storage.wheelSettings[j] == old(storage.wheelSettings)[j]
    {
      var wheelSetting := storage.wheelSettings[index];
      storage.wheelSettings := storage.wheelSettings[index := wheelSetting.(prizes := Without(wheelSetting.prizes, EntryId, prizeId))];
    }
    storage.RemovePrize(prizeId);
  }

  // ---------------------------------------------------------------------------
  // updatePrizeWeight (scripts/main.js:172-178)

  /** `updatePrizeWeight`: sets the weight of one entry of wheel `wheelId` to
      `parseInt(weight) || 1`. A wheel or an entry that is not there stops the
      handler (a TypeError) with nothing changed. */
  method UpdatePrizeWeight(storage: Storage, wheelId: int, prizeIndex: int, weight: Option<int>) returns (ok: bool)
    requires storage.Valid()
    modifies storage
    ensures storage.Valid()
    ensures storage.prizes == old(storage.prizes)
    ensures storage.userData == old(storage.userData) && storage.currentUser == old(storage.currentUser)
    ensures ok <==> 1 <= wheelId <= WheelCount && 0 <= prizeIndex < |old(storage.wheelSettings)[wheelId - 1].prizes|
    ensures ok ==>
              var w := old(storage.wheelSettings)[wheelId - 1];
              storage.wheelSettings ==
                old(storage.wheelSettings)[wheelId - 1 := w.(prizes := w.prizes[prizeIndex := w.prizes[prizeIndex].(weight := Or(weight, 1))])]
    ensures !ok ==> storage.wheelSettings == old(storage.wheelSettings)
  {
    if !(1 <= wheelId <= WheelCount) {
      return false;
    }
    var wheelSetting := storage.wheelSettings[wheelId - 1];
    if !(0 <= prizeIndex < |wheelSetting.prizes|) {
      return false;
    }
    var entry := wheelSetting.prizes[prizeIndex].(weight := Or(weight, 1));
    storage.wheelSettings := storage.wheelSettings[wheelId - 1 := wheelSetting.(prizes := wheelSetting.prizes[prizeIndex := entry])];
    ok := true;
  }

  /** A new weight changes the wheel's total by exactly the difference between
      the entry's new and old weight, and the new weight counts as the parsed
      value, or 1. */
  lemma {:induction false} ReweightTotal(prizes: seq<WheelPrize>, i: nat, weight: Option<int>)
    requires i < |prizes|
    ensures Weight(prizes[i].(weight := Or(weight, 1))) == Or(weight, 1)
    ensures TotalWeight(prizes[i := prizes[i].(weight := Or(weight, 1))])
              == TotalWeight(prizes) - Weight(prizes[i]) + Or(weight, 1)
  {
    var updated := prizes[i := prizes[i].(weight := Or(weight, 1))];
    ReweightPrefix(prizes, updated, i, |prizes|);
  }

  /** The running sums of two wheels that differ in one entry only differ by
      that entry's weights from that entry on. */
  lemma {:induction false} ReweightPrefix(prizes: seq<WheelPrize>, updated: seq<WheelPrize>, i: nat, k: nat)
    requires |updated| == |prizes| && i < |prizes| && k <= |prizes|
    requires forall j :: 0 <= j < |prizes| && j != i ==> updated[j] == prizes[j]
    ensures k <= i ==> Prefix(updated, k) == Prefix(prizes, k)
    ensures k > i ==> Prefix(updated, k) == Prefix(prizes, k) - Weight(prizes[i]) + Weight(updated[i])
    decreases k
  {
    if k > 0 {
      ReweightPrefix(prizes, updated, i, k - 1);
    }
  }

  // ---------------------------------------------------------------------------
  // removeWheelPrize (scripts/main.js:180-191)

  /** Where `splice(start, 1)` starts on `length` entries: a negative start
      counts from the end, and a start beyond either end is clamped to it. */
  function SpliceStart(length: nat, start: int): (k: nat)
    ensures k <= length
    ensures 0 <= start <= length ==> k == start
    ensures start < 0 <= length + start ==> k == length + start
    ensures length + start < 0 ==> k == 0
    ensures start > length ==> k == length
  {
    if start < 0 then (if length + start < 0 then 0 else length + start)
    else if start > length then length
    else start
  }

  /** `entries.splice(start, 1)`: the entries without the one at the splice
      start, if there is one there. */
  function RemoveAt<T>(entries: seq<T>, start: int): (r: seq<T>)
    ensures 0 < |entries| && start < |entries| ==> |r| == |entries| - 1
    ensures |entries| == 0 || start >= |entries| ==> r == entries
    ensures multiset(r) <= multiset(entries)
  {
    var k := SpliceStart(|entries|, start);
    if k < |entries| then
      assert entries == entries[..k] + [entries[k]] + entries[k + 1..];
      entries[..k] + entries[k + 1..]
    else entries
  }

  /** Removing the entry at an index in range drops exactly that entry and
      shifts the later ones down by one. */
  lemma RemoveAtShifts<T>(entries: seq<T>, i: int)
    requires 0 <= i < |entries|
    ensures |RemoveAt(entries, i)| == |entries| - 1
    ensures forall j :: 0 <= j < i ==> RemoveAt(entries, i)[j] == entries[j]
    ensures forall j :: i <= j < |entries| - 1 ==> RemoveAt(entries, i)[j] == entries[j + 1]
    ensures multiset(RemoveAt(entries, i)) + multiset{entries[i]} == multiset(entries)
  {
    assert entries == entries[..i] + [entries[i]] + entries[i + 1..];
  }

  /** A negative index counts from the end, one before the start removes the
      first entry, and one past the end removes nothing. */
  lemma RemoveAtOutside<T>(entries: seq<T>, i: int)
    ensures i < 0 <= |entries| + i ==> RemoveAt(entries, i) == RemoveAt(entries, |entries| + i)
    ensures |entries| + i < 0 ==> RemoveAt(entries, i) == RemoveAt(entries, 0)
    ensures i >= |entries| ==> RemoveAt(entries, i) == entries
  {
  }

  /** `removeWheelPrize`: splices one entry out of wheel `wheelId`. A wheel
      that is not there stops the handler with nothing changed. */
  method RemoveWheelPrize(storage: Storage, wheelId: int, prizeIndex: int) returns (ok: bool)
    requires storage.Valid()
    modifies storage
    ensures storage.Valid()
    ensures storage.prizes == old(storage.prizes)
    ensures storage.userData == old(storage.userData) && storage.currentUser == old(storage.currentUser)
    ensures ok <==> 1 <= wheelId <= WheelCount
    ensures ok ==>
              var w := old(storage.wheelSettings)[wheelId - 1];
              storage.wheelSettings == old(storage.wheelSettings)[wheelId - 1 := w.(prizes := RemoveAt(w.prizes, prizeIndex))]
    ensures !ok ==> storage.wheelSettings == old(storage.wheelSettings)
  {
    if !(1 <= wheelId <= WheelCount) {
      return false;
    }
    var wheelSetting := storage.wheelSettings[wheelId - 1];
    storage.wheelSettings := storage.wheelSettings[wheelId - 1 := wheelSetting.(prizes := RemoveAt(wheelSetting.prizes, prizeIndex))];
    ok := true;
  }

  // ---------------------------------------------------------------------------
  // addWheelPrize (scripts/main.js:193-218)

  /** `addWheelPrize`: appends the catalog prize with that id to wheel
      `wheelId` (the wheel at position `wheelId - 1`) with weight
      `parseInt(weight) || 1`. An unknown prize (a NaN id included) does
      nothing; a missing wheel stops the handler; a prize the wheel already
      holds is refused. */
  method AddWheelPrize(storage: Storage, wheelId: int, prizeId: Option<int>, weight: Option<int>) returns (outcome: AddOutcome)
    requires storage.Valid()
    modifies storage
    ensures storage.Valid()
    ensures storage.prizes == old(storage.prizes)
    ensures storage.userData == old(storage.userData) && storage.currentUser == old(storage.currentUser)
    ensures outcome != NoPrizeChosen
    ensures outcome == UnknownPrize <==> prizeId.None? || FindPrize(storage.prizes, prizeId.value).None?
    ensures outcome == NoSuchWheel <==> outcome != UnknownPrize && !(1 <= wheelId <= WheelCount)
    ensures outcome == AlreadyInWheel <==>
              && outcome != UnknownPrize && 1 <= wheelId <= WheelCount
              && HasEntry(old(storage.wheelSettings)[wheelId - 1].prizes, prizeId.value)
    ensures outcome == Added ==>
              var w := old(storage.wheelSettings)[wheelId - 1];
              var entry := EntryFor(FindPrize(storage.prizes, prizeId.value).value, Or(weight, 1));
              storage.wheelSettings == old(storage.wheelSettings)[wheelId - 1 := w.(prizes := w.prizes + [entry])]
    ensures outcome != Added ==> storage.wheelSettings == old(storage.wheelSettings)
    ensures forall k :: 0 <= k < |storage.wheelSettings| && UniqueIds(old(storage.wheelSettings)[k].prizes) ==>
              UniqueIds(storage.wheelSettings[k].prizes)
  {
    var entryWeight := Or(weight, 1);
    var prize := if prizeId.Some? then FindPrize(storage.prizes, prizeId.value) else None;
    if prize.None? {
      return UnknownPrize;
    }
    if !(1 <= wheelId <= WheelCount) {
      return NoSuchWheel;
    }
    var wheelSetting := storage.wheelSettings[wheelId - 1];
    if HasEntry(wheelSetting.prizes, prizeId.value) {
      return AlreadyInWheel;
    }
    var entry := EntryFor(prize.value, entryWeight);
    if UniqueIds(wheelSetting.prizes) {
      PushKeepsUnique(wheelSetting.prizes, entry);
    }
    storage.wheelSettings := storage.wheelSettings[wheelId - 1 := wheelSetting.(prizes := wheelSetting.prizes + [entry])];
    outcome := Added;
  }

  // ---------------------------------------------------------------------------
  // editFragmentCount (scripts/main.js:270-286)

  /** `editFragmentCount`: sets the `fragmentCount` of the first catalog entry
      with that id. Nothing changes for an unknown id, a cancelled prompt, or
      a count that is NaN or not positive. Wheel entries keep the count they
      copied, and users' fragment records keep the `required` they were created with. */
  method EditFragmentCount(storage: Storage, prizeId: int, answer: PromptAnswer) returns (changed: bool)
    requires storage.Valid()
    modifies storage
    ensures storage.Valid()
    ensures storage.wheelSettings == old(storage.wheelSettings)
    ensures storage.userData == old(storage.userData) && storage.currentUser == old(storage.currentUser)
    ensures changed <==> && FindPrize(old(storage.prizes), prizeId).Some?
                         && answer.Entered? && answer.count.Some? && answer.count.value > 0
    ensures changed ==>
              var i := IndexOf(old(storage.prizes), PrizeId, prizeId).value;
              storage.prizes == old(storage.prizes)[i := old(storage.prizes)[i].(fragmentCount := answer.count.value)]
    ensures !changed ==> storage.prizes == old(storage.prizes)
  {
    var index := IndexOf(storage.prizes, PrizeId, prizeId);
    if index.None? {
      return false;
    }
    if answer.Cancelled? {
      return false;
    }
    match answer.count
    case None =>
      changed := false;
    case Some(count) =>
      if count <= 0 {
        changed := false;
      } else {
        var prize := storage.prizes[index.value];
        storage.prizes := storage.prizes[index.value := prize.(fragmentCount := count)];
        changed := true;
      }
  }

  /** After an edit the catalog answers the id with the edited entry: the same
      prize with the new count, so the next draw of it counts fragments by
      that number. */
  lemma EditedPrizeIsFound(prizes: seq<Prize>, prizeId: int, count: int)
    requires IndexOf(prizes, PrizeId, prizeId).Some?
    ensures var i := IndexOf(prizes, PrizeId, prizeId).value;
            FindPrize(prizes[i := prizes[i].(fragmentCount := count)], prizeId)
              == Some(FindPrize(prizes, prizeId).value.(fragmentCount := count))
  {
    var i := IndexOf(prizes, PrizeId, prizeId).value;
    var edited := prizes[i := prizes[i].(fragmentCount := count)];
    IndexOfUnderEdit(prizes, edited, prizeId, i);
  }

  /** Changing an entry's fields other than its id leaves every lookup by id where it was. */
  lemma {:induction false} IndexOfUnderEdit(prizes: seq<Prize>, edited: seq<Prize>, id: int, i: nat)
    requires |edited| == |prizes| && i < |prizes| && edited[i].id == prizes[i].id
    requires forall j :: 0 <= j < |prizes| && j != i ==> edited[j] == prizes[j]
    ensures IndexOf(edited, PrizeId, id) == IndexOf(prizes, PrizeId, id)
    decreases |prizes|
  {
    if prizes != [] && prizes[0].id != id && i > 0 {
      IndexOfUnderEdit(prizes[1..], edited[1..], id, i - 1);
    } else if prizes != [] && prizes[0].id != id {
      assert edited[1..] == prizes[1..];
    }
  }

  // ---------------------------------------------------------------------------
  // The add-to-wheel button of the admin panel (scripts/main.js:341-371)

  /** The add-to-wheel click handler: like `addWheelPrize`, but an id that
      parses to NaN or 0 is refused first, the wheel is the first one whose
      `id` is `wheelId`, and the entry pushed is `{...prize, weight}`. */
  method AddToWheel(storage: Storage, wheelId: int, prizeId: Option<int>, weight: Option<int>) returns (outcome: AddOutcome)
    requires storage.Valid()
    modifies storage
    ensures storage.Valid()
    ensures storage.prizes == old(storage.prizes)
    ensures storage.userData == old(storage.userData) && storage.currentUser == old(storage.currentUser)
    ensures outcome == NoPrizeChosen <==> prizeId.None? || prizeId.value == 0
    ensures outcome == UnknownPrize <==> outcome != NoPrizeChosen && FindPrize(storage.prizes, prizeId.value).None?
    ensures outcome == NoSuchWheel <==>
              && outcome != NoPrizeChosen && outcome != UnknownPrize
              && IndexOf(old(storage.wheelSettings), WheelId, wheelId).None?
    ensures outcome == AlreadyInWheel <==>
              && outcome != NoPrizeChosen && outcome != UnknownPrize
              && IndexOf(old(storage.wheelSettings), WheelId, wheelId).Some?
              && HasEntry(old(storage.wheelSettings)[IndexOf(old(storage.wheelSettings), WheelId, wheelId).value].prizes, prizeId.value)
    ensures outcome == Added ==>
              var k := IndexOf(old(storage.wheelSettings), WheelId, wheelId).value;
              var w := old(storage.wheelSettings)[k];
              var entry := EntryFor(FindPrize(storage.prizes, prizeId.value).value, Or(weight, 1));
              storage.wheelSettings == old(storage.wheelSettings)[k := w.(prizes := w.prizes + [entry])]
    ensures outcome != Added ==> storage.wheelSettings == old(storage.wheelSettings)
    ensures forall k :: 0 <= k < |storage.wheelSettings| && UniqueIds(old(storage.wheelSettings)[k].prizes) ==>
              UniqueIds(storage.wheelSettings[k].prizes)
  {
    var entryWeight := Or(weight, 1);
    if prizeId.None? || prizeId.value == 0 {
      return NoPrizeChosen;
    }
    var prize := FindPrize(storage.prizes, prizeId.value);
    if prize.None? {
      return UnknownPrize;
    }
    var wheelIndex := IndexOf(storage.wheelSettings, WheelId, wheelId);
    if wheelIndex.None? {
      return NoSuchWheel;
    }
    var wheel := storage.wheelSettings[wheelIndex.value];
    if HasEntry(wheel.prizes, prizeId.value) {
      return AlreadyInWheel;
    }
    var entry := EntryFor(prize.value, entryWeight);
    if UniqueIds(wheel.prizes) {
      PushKeepsUnique(wheel.prizes, entry);
    }
    storage.wheelSettings := storage.wheelSettings[wheelIndex.value := wheel.(prizes := wheel.prizes + [entry])];
    outcome := Added;
  }
}
