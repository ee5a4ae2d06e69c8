/** The drawing side of `LuckyWheel` in scripts/wheel.js: the `isSpinning`
    guard, the weighted draw from the selected user's current wheel, and
    `finishSpin`, which looks the drawn entry up in the catalog and records it.
    The animation between the two is left out; what it does to the model is
    clear `isSpinning` when it ends. */
module WheelSpin {
  import opened Prizes
  import opened Progress
  import opened Selection
  import opened PrizeStorage

  /** How the first half of `spin` ends: ignored while a spin is running,
      refused without a selected user or with an empty current wheel, or an
      entry drawn (with its index in the wheel). */
  datatype SpinStart = Busy | NoUser | NoPrizes | Drawn(index: nat, prize: WheelPrize)

  class LuckyWheel {
    const storage: Storage
    var isSpinning: bool

    ghost predicate Valid()
      reads storage
    {
      storage.Valid()
    }

    constructor (storage: Storage)
      requires storage.Valid()
      ensures Valid()
      ensures this.storage == storage && !isSpinning
    {
      this.storage := storage;
      isSpinning := false;
    }

    /** `this.storage.wheelSettings[user.data.currentWheel - 1]`: the wheel the
        selected user is on. */
    function CurrentWheel(): (w: Wheel)
      reads storage
      requires Valid() && storage.currentUser != ""
      ensures w in storage.wheelSettings
    {
      storage.wheelSettings[storage.userData[storage.currentUser].currentWheel - 1]
    }

    /** `spin` up to the draw: the guards in the source's order, then
        `isSpinning` is set and an entry is drawn with `randomWeight` =
        `random * totalWeight`, `random` standing for `Math.random()`. The
        storage is not touched. */
    method StartSpin(random: real) returns (start: SpinStart)
      requires Valid()
      requires 0.0 <= random < 1.0
      modifies this
      ensures Valid()
      ensures old(isSpinning) ==> start == Busy && isSpinning
      ensures !old(isSpinning) && storage.currentUser == "" ==> start == NoUser && !isSpinning
      ensures !old(isSpinning) && storage.currentUser != "" ==>
                var prizes := CurrentWheel().prizes;
                if |prizes| == 0 then start == NoPrizes && !isSpinning
                else
                  && start.Drawn? && isSpinning
                  && Drew(prizes, random, start.index)
                  && start.prize == prizes[start.index]
    {
      if isSpinning {
        return Busy;
      }
      if storage.currentUser == "" {
        return NoUser;
      }
      assert RecordValid(storage.userData[storage.currentUser]);
      var currentWheel := storage.wheelSettings[storage.userData[storage.currentUser].currentWheel - 1];
      assert currentWheel == CurrentWheel();
      if |currentWheel.prizes| == 0 {
        return NoPrizes;
      }
      isSpinning := true;
      var selectedIndex := Draw(currentWheel.prizes, random);
      start := Drawn(selectedIndex, currentWheel.prizes[selectedIndex]);
    }

    /** `finishSpin`: records the drawn entry under the catalog's flags. An id
        missing from the catalog, or a record that fails, changes nothing;
        either way the spin is over afterwards. */
    method FinishSpin(prize: WheelPrize) returns (recorded: bool)
      requires Valid()
      modifies this, storage
      ensures Valid() && !isSpinning
      ensures storage.prizes == old(storage.prizes) && storage.wheelSettings == old(storage.wheelSettings)
      ensures storage.currentUser == old(storage.currentUser)
      ensures recorded <==> storage.currentUser != "" && FindPrize(storage.prizes, prize.id).Some?
      ensures recorded ==>
                storage.userData == old(storage.userData)[storage.currentUser :=
                  ApplyDraw(old(storage.userData[storage.currentUser]), prize.name, FindPrize(storage.prizes, prize.id).value)]
      ensures !recorded ==> storage.userData == old(storage.userData)
    {
      var prizeConfig := FindPrize(storage.prizes, prize.id);
      if prizeConfig.None? {
        recorded := false;
      } else {
        var fullPrize := prize.(notCounted := prizeConfig.value.notCounted,
                                fragmentCount := prizeConfig.value.fragmentCount);
        recorded := storage.RecordPrize(fullPrize);
      }
      isSpinning := false;
    }

    /** A whole `spin`: the start, the end of the animation, and the finish.
        A spin asked for while one is running changes nothing. Otherwise it is
        refused without a selected user or with an empty current wheel, and
        draws the `IsSelection` entry of the current wheel when both are
        there; the wheel is idle again afterwards and at most the drawn entry
        was recorded. */
    method Spin(random: real) returns (start: SpinStart, recorded: bool)
      requires Valid()
      requires 0.0 <= random < 1.0
      modifies this, storage
      ensures Valid()
      ensures isSpinning == old(isSpinning)
      ensures old(isSpinning) <==> start == Busy
      ensures !old(isSpinning) && old(storage.currentUser) == "" ==> start == NoUser
      ensures !old(isSpinning) && old(storage.currentUser) != "" ==>
                var prizes := old(CurrentWheel().prizes);
                if |prizes| == 0 then start == NoPrizes
                else
                  && start.Drawn?
                  && Drew(prizes, random, start.index)
                  && start.prize == prizes[start.index]
      ensures storage.prizes == old(storage.prizes) && storage.wheelSettings == old(storage.wheelSettings)
      ensures storage.currentUser == old(storage.currentUser)
      ensures start.Drawn? ==> storage.currentUser != "" && start.prize in old(CurrentWheel().prizes)
      ensures recorded <==> start.Drawn? && FindPrize(storage.prizes, start.prize.id).Some?
      ensures recorded ==>
                storage.userData == old(storage.userData)[storage.currentUser :=
                  ApplyDraw(old(storage.userData[storage.currentUser]), start.prize.name,
                            FindPrize(storage.prizes, start.prize.id).value)]
      ensures !recorded ==> storage.userData == old(storage.userData)
    {
      start := StartSpin(random);
      recorded := false;
      if start.Drawn? {
        isSpinning := false;
        recorded := FinishSpin(start.prize);
      }
    }
  }
}
