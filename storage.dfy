/** The `Storage` class of scripts/storage.js: the prize catalog, the five
    wheel settings, every user's progress record and the selected user, and
    the operations on them. Persistence (`saveData`, `loadData`) is not part
    of this model; the constructor starts from an empty browser store. */
module PrizeStorage {
  import opened Wrappers
  import opened Decimal
  import opened Prizes
  import opened Progress
  import opened Report

  class Storage {
    var currentUser: string
    var prizes: seq<Prize>
    var wheelSettings: seq<Wheel>
    var userData: map<string, UserRecord>

    /** There are five wheels, a selected user has a record, and every record
        keeps its invariant (in particular `currentWheel` lies in 1..5). */
    ghost predicate Valid()
      reads this
    {
      && |wheelSettings| == WheelCount
      && (currentUser != "" ==> currentUser in userData)
      && forall u :: u in userData ==> RecordValid(userData[u])
    }

    /** `new Storage()` over an empty browser store. */
    constructor ()
      ensures Valid()
      ensures currentUser == "" && prizes == [] && wheelSettings == DefaultWheelSettings() && userData == map[]
    {
      currentUser := "";
      prizes := [];
      wheelSettings := DefaultWheelSettings();
      userData := map[];
    }

    /** `switchUser`: an empty name is refused and changes nothing; any other
        name becomes the selected user and gets a fresh record unless it has one. */
    method SwitchUser(username: string) returns (ok: bool)
      requires Valid()
      modifies this
      ensures Valid()
      ensures ok <==> username != ""
      ensures !ok ==> currentUser == old(currentUser) && userData == old(userData)
      ensures ok ==> currentUser == username
      ensures ok && username in old(userData) ==> userData == old(userData)
      ensures ok && username !in old(userData) ==> userData == old(userData)[username := NewRecord()]
      ensures prizes == old(prizes) && wheelSettings == old(wheelSettings)
    {
      if username == "" {
        return false;
      }
      currentUser := username;
      if username !in userData {
        userData := userData[username := NewRecord()];
      }
      ok := true;
    }

    /** `addPrize`: appends a catalog entry built from its arguments; `id`
        stands for the `Date.now()` timestamp and `fragmentCount` for the
        parsed form field, read as `parseInt(fragmentCount) || 0`. */
    method AddPrize(id: int, name: string, fragmentCount: Option<int>, notCounted: bool) returns (prize: Prize)
      requires Valid()
      modifies this
      ensures Valid()
      ensures prize == Prize(id, name, Or(fragmentCount, 0), notCounted)
      ensures prizes == old(prizes) + [prize]
      ensures (forall p :: p in old(prizes) ==> p.id != id) ==> FindPrize(prizes, id) == Some(prize)
      ensures wheelSettings == old(wheelSettings) && userData == old(userData) && currentUser == old(currentUser)
    {
      prize := Prize(id, name, Or(fragmentCount, 0), notCounted);
      prizes := prizes + [prize];
    }

    /** `removePrize`: drops every catalog entry with that id and keeps the others in order. */
    method RemovePrize(prizeId: int)
      requires Valid()
      modifies this
      ensures Valid()
      ensures prizes == Without(old(prizes), PrizeId, prizeId)
      ensures forall p :: p in prizes <==> p in old(prizes) && p.id != prizeId
      ensures wheelSettings == old(wheelSettings) && userData == old(userData) && currentUser == old(currentUser)
    {
      WithoutMembers(prizes, PrizeId, prizeId);
      prizes := Without(prizes, PrizeId, prizeId);
    }

    /** `addToInventory`: adds `count` to the selected user's entry for the
        name. With no user selected the source throws a TypeError before
        changing anything; that is `ok == false` here. */
    method AddToInventory(prizeName: string, count: nat) returns (ok: bool)
      requires Valid()
      modifies this
      ensures Valid()
      ensures prizes == old(prizes) && wheelSettings == old(wheelSettings) && currentUser == old(currentUser)
      ensures ok <==> currentUser != ""
      ensures ok ==> userData == old(userData)[currentUser := old(userData[currentUser]).(inventory := AddCount(old(userData[currentUser]).inventory, prizeName, count))]
      ensures !ok ==> userData == old(userData)
    {
      if currentUser == "" {
        return false;
      }
      var record := userData[currentUser];
      AddCountKeepsUnique(record.inventory, prizeName, count);
      userData := userData[currentUser := record.(inventory := AddCount(record.inventory, prizeName, count))];
      ok := true;
    }

    /** `recordPrize`: applies one draw of `prize` to the selected user's
        record. It fails, changing nothing, when no user is selected or no
        catalog entry has the prize's id. It reads the flags from the catalog
        entry, records under the name `prize` carries, and advances the wheel by
        the fixed `RequiredSpins` thresholds, not by the wheel's own `requiredSpins`. */
    method RecordPrize(prize: WheelPrize) returns (ok: bool)
      requires Valid()
      modifies this
      ensures Valid()
      ensures prizes == old(prizes) && wheelSettings == old(wheelSettings) && currentUser == old(currentUser)
      ensures ok <==> currentUser != "" && FindPrize(prizes, prize.id).Some?
      ensures ok ==> userData == old(userData)[currentUser := ApplyDraw(old(userData[currentUser]), prize.name, FindPrize(prizes, prize.id).value)]
      ensures !ok ==> userData == old(userData)
    {
      if currentUser == "" {
        return false;
      }
      var prizeConfig := FindPrize(prizes, prize.id);
      if prizeConfig.None? {
        return false;
      }
      RecordWin(prize.name, prizeConfig.value);
      AdvanceWheel();
      ok := true;
    }

    /** The prize step of `recordPrize` for the selected user: nothing for a
        prize that is not counted, a fragment for a fragment prize, and one
        whole prize in the inventory otherwise. */
    method RecordWin(name: string, config: Prize)
      requires Valid() && currentUser != ""
      modifies this
      ensures Valid()
      ensures prizes == old(prizes) && wheelSettings == old(wheelSettings) && currentUser == old(currentUser)
      ensures userData == old(userData)[currentUser := AddWin(old(userData[currentUser]), name, config)]
    {
      if !config.notCounted {
        if config.fragmentCount > 0 {
          RecordFragment(name, config.fragmentCount);
        } else {
          var added := AddToInventory(name, 1);
        }
      }
    }

    /** The fragment step of `recordPrize` for the selected user: the record
        under `name` (a fresh one if there is none) gains a fragment and, on
        reaching the catalog's `fragmentCount`, whole sets move into its
        completed sets and the inventory. */
    method RecordFragment(name: string, fragmentCount: int)
      requires Valid() && currentUser != "" && fragmentCount > 0
      modifies this
      ensures Valid()
      ensures prizes == old(prizes) && wheelSettings == old(wheelSettings) && currentUser == old(currentUser)
      ensures userData == old(userData)[currentUser := AddFragment(old(userData[currentUser]), name, fragmentCount)]
    {
      var record := userData[currentUser];
      var fragment := FragmentOf(record.fragments, name, fragmentCount);
      fragment := fragment.(current := fragment.current + 1);
      if fragment.current >= fragmentCount {
        var completeSets := fragment.current / fragmentCount;
        fragment := fragment.(current := fragment.current % fragmentCount,
                              completedSets := fragment.completedSets + completeSets);
        StoreFragment(fragment);
        var added := AddToInventory(name, completeSets);
      } else {
        StoreFragment(fragment);
      }
    }

    /** The wheel progress step of `recordPrize` for the selected user: one more
        spin, and on reaching `RequiredSpins(currentWheel)` a move to the next
        wheel (5 wraps to 1) with the count back at 0. */
    method AdvanceWheel()
      requires Valid() && currentUser != ""
      modifies this
      ensures Valid()
      ensures userData == old(userData)[currentUser := AdvanceSpin(old(userData[currentUser]))]
      ensures prizes == old(prizes) && wheelSettings == old(wheelSettings) && currentUser == old(currentUser)
    {
      var record := userData[currentUser];
      record := record.(spinsCompleted := record.spinsCompleted + 1);
      var requiredSpins := RequiredSpins(record.currentWheel);
      if record.spinsCompleted >= requiredSpins {
        record := record.(currentWheel := if record.currentWheel == 5 then 1 else record.currentWheel + 1,
                          spinsCompleted := 0);
      }
      userData := userData[currentUser := record];
    }

    /** `userData.fragments[f.name] = f` for the selected user, as `recordPrize` does in place. */
    method StoreFragment(f: Fragment)
      requires Valid() && currentUser != ""
      modifies this
      ensures Valid()
      ensures userData == old(userData)[currentUser := old(userData[currentUser]).(fragments := PutFragment(old(userData[currentUser]).fragments, f))]
      ensures prizes == old(prizes) && wheelSettings == old(wheelSettings) && currentUser == old(currentUser)
    {
      var record := userData[currentUser];
      PutFragmentKeepsUnique(record.fragments, f);
      userData := userData[currentUser := record.(fragments := PutFragment(record.fragments, f))];
    }

    /** `exportUserData`: the empty string for a user without a record, and
        otherwise the report of that user's record, built line by line. */
    method ExportUserData(username: string) returns (output: string)
      ensures username !in userData ==> output == ""
      ensures username in userData ==> output == UserReport(username, userData[username])
    {
      if username !in userData {
        return "";
      }
      var data := userData[username];
      output := Header(username);
      output := output + InventoryTitle;
      output := AppendLines(output, data.inventory, ItemLine);
      output := output + FragmentTitle;
      output := AppendLines(output, data.fragments, FragmentLine);
      output := output + StatusLine(data);
      Regroup(Header(username), InventoryTitle, Lines(data.inventory, ItemLine), FragmentTitle,
              Lines(data.fragments, FragmentLine), StatusLine(data));
    }

    /** `resetUserData`: forgets every user and the selection; the catalog and
        wheels stay. */
    method ResetUserData()
      requires Valid()
      modifies this
      ensures Valid()
      ensures userData == map[] && currentUser == ""
      ensures prizes == old(prizes) && wheelSettings == old(wheelSettings)
    {
      userData := map[];
      currentUser := "";
    }

    /** `exportWheelSettings`: the catalog and wheels as one object, which an
        import always accepts. */
    function ExportWheelSettings(): (data: ConfigData)
      reads this
      requires Valid()
      ensures CheckImport(data).None?
      ensures data.prizes.items == prizes && data.wheelSettings.items == wheelSettings
    {
      SnapshotIsAccepted(prizes, wheelSettings);
      Snapshot(prizes, wheelSettings)
    }

    /** `importWheelSettings`: all or nothing. A payload that fails a check
        (a falsy field, prizes not an array, wheels not an array of five) is
        refused and leaves the configuration as it was. */
    method ImportWheelSettings(data: ConfigData) returns (ok: bool)
      requires Valid()
      modifies this
      ensures Valid()
      ensures ok <==> CheckImport(data).None?
      ensures ok ==> prizes == data.prizes.items && wheelSettings == data.wheelSettings.items
      ensures !ok ==> prizes == old(prizes) && wheelSettings == old(wheelSettings)
      ensures userData == old(userData) && currentUser == old(currentUser)
    {
      match CheckImport(data)
      case Some(error) =>
        ok := false;
      case None =>
        prizes := data.prizes.items;
        wheelSettings := data.wheelSettings.items;
        ok := true;
    }

    /** `resetWheelSettings`: an empty catalog and the five default wheels. */
    method ResetWheelSettings()
      requires Valid()
      modifies this
      ensures Valid()
      ensures prizes == [] && wheelSettings == DefaultWheelSettings()
      ensures userData == old(userData) && currentUser == old(currentUser)
    {
      prizes := [];
      wheelSettings := DefaultWheelSettings();
    }
  }

  /** The `forEach` of `exportUserData`: appends the line `render` gives for
      each entry, in entry order. */
  method AppendLines<T>(output: string, entries: seq<T>, render: T -> string) returns (result: string)
    ensures result == output + Lines(entries, render)
  {
    result := output;
    for i := 0 to |entries|
      invariant result == output + Lines(entries[..i], render)
    {
      assert entries[..i + 1][..i] == entries[..i];
      result := result + render(entries[i]);
    }
    assert entries[..|entries|] == entries;
  }

  /** Exporting the configuration and importing the result back succeeds and
      leaves the storage exactly as it was. */
  method ExportThenImport(storage: Storage) returns (ok: bool)
    requires storage.Valid()
    modifies storage
    ensures ok
    ensures storage.prizes == old(storage.prizes) && storage.wheelSettings == old(storage.wheelSettings)
    ensures storage.userData == old(storage.userData) && storage.currentUser == old(storage.currentUser)
  {
    var data := storage.ExportWheelSettings();
    ok := storage.ImportWheelSettings(data);
  }
}
