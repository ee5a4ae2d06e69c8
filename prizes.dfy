/** The prize catalog, the five wheel settings and the configuration snapshot
    that scripts/storage.js keeps and persists, with the pure parts of that
    file: the spin threshold of each wheel, the default wheels and the
    validation of an imported snapshot. */
module Prizes {
  import opened Wrappers

  /** A catalog entry `{id, name, fragmentCount, notCounted}`. A positive
      `fragmentCount` makes it a fragment prize; `notCounted` prizes are never
      recorded in a user's inventory. */
  datatype Prize = Prize(id: int, name: string, fragmentCount: int, notCounted: bool)

  /** An entry of a wheel `{id, name, weight, notCounted, fragmentCount}`. The
      name and flags are copies taken from the catalog when the entry was added.
      A weight of 0 stands for an absent weight as well: the source reads every
      weight as `weight || 1`, for which both are the same. */
  datatype WheelPrize = WheelPrize(id: int, name: string, weight: int, notCounted: bool, fragmentCount: int)

  /** One prize pool `{id, prizes, requiredSpins}`. */
  datatype Wheel = Wheel(id: int, prizes: seq<WheelPrize>, requiredSpins: int)

  const WheelCount := 5

  /** `parseInt(input) || fallback`: a missing (NaN) or zero parse gives the fallback. */
  function Or(parsed: Option<int>, fallback: int): (n: int)
    ensures fallback != 0 ==> n != 0
    ensures parsed.Some? && parsed.value != 0 ==> n == parsed.value
    ensures (parsed.None? || parsed.value == 0) ==> n == fallback
  {
    match parsed
    case Some(v) => if v != 0 then v else fallback
    case None => fallback
  }

  /** `getRequiredSpins`: the fixed number of spins after which a user moves on
      from a wheel, 12, 10, 8, 6, 4 for wheels 1 to 5 and 12 for any other number. */
  function RequiredSpins(wheelNumber: int): (n: int)
    ensures 1 <= wheelNumber <= WheelCount ==> n == 14 - 2 * wheelNumber
    ensures !(1 <= wheelNumber <= WheelCount) ==> n == 12
    ensures 4 <= n <= 12
  {
    var spinsMap := map[1 := 12, 2 := 10, 3 := 8, 4 := 6, 5 := 4];
    if wheelNumber in spinsMap then spinsMap[wheelNumber] else 12
  }

  /** The wheel a user moves to after finishing `wheel`: the next one, with 5 wrapping to 1. */
  function NextWheel(wheel: int): (n: int)
    ensures 1 <= wheel <= WheelCount ==> 1 <= n <= WheelCount
    ensures 1 <= wheel < WheelCount ==> n == wheel + 1
    ensures wheel == WheelCount ==> n == 1
  {
    if wheel == 5 then 1 else wheel + 1
  }

  /** `getDefaultWheelSettings`: five empty wheels with ids 1 to 5 and the
      default thresholds. */
  function DefaultWheelSettings(): (ws: seq<Wheel>)
    ensures ws == [Wheel(1, [], 12), Wheel(2, [], 10), Wheel(3, [], 8), Wheel(4, [], 6), Wheel(5, [], 4)]
  {
    seq(5, index => Wheel(index + 1, [], RequiredSpins(index + 1)))
  }

  /** The id of a catalog entry. */
  function PrizeId(p: Prize): int { p.id }

  /** The id of a wheel entry. */
  function EntryId(e: WheelPrize): int { e.id }

  /** The id of a wheel. */
  function WheelId(w: Wheel): int { w.id }

  /** `entries.findIndex(e => e.id === id)`: where the first entry with that id is. */
  function IndexOf<T>(entries: seq<T>, idOf: T -> int, id: int): (r: Option<nat>)
    ensures r.None? <==> forall i :: 0 <= i < |entries| ==> idOf(entries[i]) != id
    ensures r.Some? ==> r.value < |entries| && idOf(entries[r.value]) == id
                        && forall j :: 0 <= j < r.value ==> idOf(entries[j]) != id
  {
    if entries == [] then None
    else if idOf(entries[0]) == id then Some(0)
    else
      match IndexOf(entries[1..], idOf, id)
      case Some(i) => Some(i + 1)
      case None => None
  }

  /** `prizes.find(p => p.id === id)`: the first catalog entry with that id. */
  function FindPrize(prizes: seq<Prize>, id: int): (r: Option<Prize>)
    ensures r.None? <==> forall p :: p in prizes ==> p.id != id
    ensures r.Some? ==> r.value in prizes && r.value.id == id
    ensures r.Some? ==> r.value == prizes[IndexOf(prizes, PrizeId, id).value]
  {
    match IndexOf(prizes, PrizeId, id)
    case Some(i) => Some(prizes[i])
    case None => None
  }

  /** `entries.filter(e => e.id !== id)`, for catalog and wheel entries alike. */
  function Without<T>(entries: seq<T>, idOf: T -> int, id: int): (r: seq<T>)
    ensures |r| <= |entries|
  {
    if entries == [] then []
    else if idOf(entries[0]) == id then Without(entries[1..], idOf, id)
    else [entries[0]] + Without(entries[1..], idOf, id)
  }

  /** The filter keeps exactly the entries with another id. */
  lemma {:induction false} WithoutMembers<T>(entries: seq<T>, idOf: T -> int, id: int)
    ensures forall e :: e in Without(entries, idOf, id) <==> e in entries && idOf(e) != id
  {
    if entries != [] {
      WithoutMembers(entries[1..], idOf, id);
      assert entries == [entries[0]] + entries[1..];
    }
  }

  /** The filter works piece by piece, so the kept entries stay in their order. */
  lemma {:induction false} WithoutAppend<T>(a: seq<T>, b: seq<T>, idOf: T -> int, id: int)
    ensures Without(a + b, idOf, id) == Without(a, idOf, id) + Without(b, idOf, id)
  {
    if a != [] {
      assert (a + b)[1..] == a[1..] + b;
      WithoutAppend(a[1..], b, idOf, id);
    } else {
      assert a + b == b;
    }
  }

  /** Entries without that id pass through unchanged. */
  lemma {:induction false} WithoutAbsent<T>(entries: seq<T>, idOf: T -> int, id: int)
    requires forall i :: 0 <= i < |entries| ==> idOf(entries[i]) != id
    ensures Without(entries, idOf, id) == entries
  {
    if entries != [] {
      WithoutAbsent(entries[1..], idOf, id);
    }
  }

  /** How a field of an imported object reads: falsy (absent, null, 0, ""),
      present but not an array, or an array of entries. Entries are taken to be
      well formed: the source does not look inside them. */
  datatype Field<T> = Falsy | NotArray | Array(items: seq<T>)

  /** The `{prizes, wheelSettings}` object that is exported and imported. */
  datatype ConfigData = ConfigData(prizes: Field<Prize>, wheelSettings: Field<Wheel>)

  /** The three errors an import throws, in the order it tests for them. */
  datatype ImportError = InvalidFormat | PrizesNotArray | WheelSettingsMalformed

  /** `exportWheelSettings` on the catalog and wheels given. */
  function Snapshot(prizes: seq<Prize>, wheels: seq<Wheel>): (r: ConfigData)
    ensures CheckImport(r).None? <==> |wheels| == WheelCount
  {
    ConfigData(Array(prizes), Array(wheels))
  }

  /** The validation of `importWheelSettings`: the first check that fails, or None. */
  function CheckImport(data: ConfigData): (r: Option<ImportError>)
    ensures r == Some(InvalidFormat) <==> data.prizes.Falsy? || data.wheelSettings.Falsy?
    ensures r == Some(PrizesNotArray) <==> !data.wheelSettings.Falsy? && data.prizes.NotArray?
    ensures r == Some(WheelSettingsMalformed) <==>
              && data.prizes.Array? && !data.wheelSettings.Falsy?
              && !(data.wheelSettings.Array? && |data.wheelSettings.items| == WheelCount)
  {
    if data.prizes.Falsy? || data.wheelSettings.Falsy? then Some(InvalidFormat)
    else if !data.prizes.Array? then Some(PrizesNotArray)
    else if !data.wheelSettings.Array? || |data.wheelSettings.items| != WheelCount then Some(WheelSettingsMalformed)
    else None
  }

  /** An import is accepted exactly when both fields are arrays and there are five wheels. */
  lemma CheckImportAccepts(data: ConfigData)
    ensures CheckImport(data).None? <==>
              data.prizes.Array? && data.wheelSettings.Array? && |data.wheelSettings.items| == WheelCount
  {
  }

  /** A snapshot of a configuration with five wheels imports without error. */
  lemma SnapshotIsAccepted(prizes: seq<Prize>, wheels: seq<Wheel>)
    requires |wheels| == WheelCount
    ensures CheckImport(Snapshot(prizes, wheels)).None?
    ensures Snapshot(prizes, wheels).prizes.items == prizes
    ensures Snapshot(prizes, wheels).wheelSettings.items == wheels
  {
  }
}
