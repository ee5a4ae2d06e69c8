/** A user's progress record of scripts/storage.js and what recording one draw
    does to it (`recordPrize`, `addToInventory`).

    The source keeps `inventory` and `fragments` as JavaScript objects keyed by
    prize name. Such objects are ordered dictionaries: a new key goes at the
    end, an existing key keeps its place, and `Object.entries` lists the keys in
    that order. They are modelled as association lists with distinct names. */
module Progress {
  import opened Wrappers
  import opened Prizes

  /** An inventory entry `name: count`. */
  datatype Item = Item(name: string, count: nat)

  /** A fragment entry `name: {current, required, completedSets}`. */
  datatype Fragment = Fragment(name: string, current: nat, required: int, completedSets: nat)

  /** `{currentWheel, spinsCompleted, inventory, fragments}`. */
  datatype UserRecord = UserRecord(currentWheel: int, spinsCompleted: nat, inventory: seq<Item>, fragments: seq<Fragment>)

  /** The record `switchUser` creates for a name it has not seen. */
  function NewRecord(): (r: UserRecord)
    ensures r.currentWheel == 1 && r.spinsCompleted == 0
    ensures RecordValid(r)
    ensures r.inventory == [] && r.fragments == []
  {
    UserRecord(1, 0, [], [])
  }

  /** Whether some entry of the inventory is listed under `name`. */
  predicate HasItem(inventory: seq<Item>, name: string) {
    exists i :: 0 <= i < |inventory| && inventory[i].name == name
  }

  ghost predicate UniqueItems(inventory: seq<Item>) {
    forall i, j :: 0 <= i < j < |inventory| ==> inventory[i].name != inventory[j].name
  }

  predicate HasFragment(fragments: seq<Fragment>, name: string) {
    exists i :: 0 <= i < |fragments| && fragments[i].name == name
  }

  ghost predicate UniqueFragments(fragments: seq<Fragment>) {
    forall i, j :: 0 <= i < j < |fragments| ==> fragments[i].name != fragments[j].name
  }

  /** The invariant every stored record keeps: the user is on one of the five
      wheels, has not yet reached that wheel's threshold, and no name is listed twice. */
  ghost predicate RecordValid(rec: UserRecord) {
    && 1 <= rec.currentWheel <= WheelCount
    && rec.spinsCompleted < RequiredSpins(rec.currentWheel)
    && UniqueItems(rec.inventory)
    && UniqueFragments(rec.fragments)
  }

  /** `inventory[name] || 0`. */
  function Count(inventory: seq<Item>, name: string): nat {
    if inventory == [] then 0
    else if inventory[0].name == name then inventory[0].count
    else Count(inventory[1..], name)
  }

  /** The lookup `inventory[name] || 0`: 0 for a name with no entry, else the
      count of the first entry under the name. */
  lemma {:induction false} CountIsLookup(inventory: seq<Item>, name: string)
    ensures !HasItem(inventory, name) ==> Count(inventory, name) == 0
    ensures HasItem(inventory, name) ==>
              exists i :: 0 <= i < |inventory| && inventory[i] == Item(name, Count(inventory, name))
                          && forall j :: 0 <= j < i ==> inventory[j].name != name
  {
    if inventory != [] && inventory[0].name != name {
      var rest := inventory[1..];
      CountIsLookup(rest, name);
      if HasItem(rest, name) {
        var i :| 0 <= i < |rest| && rest[i] == Item(name, Count(rest, name))
                 && forall j :: 0 <= j < i ==> rest[j].name != name;
        assert inventory[i + 1] == Item(name, Count(inventory, name));
        assert forall j :: 0 <= j < i + 1 ==> inventory[j].name != name by {
          forall j | 0 <= j < i + 1 ensures inventory[j].name != name {
            if j > 0 { assert inventory[j] == rest[j - 1]; }
          }
        }
      }
      if HasItem(inventory, name) {
        var i :| 0 <= i < |inventory| && inventory[i].name == name;
        assert rest[i - 1].name == name;
      }
    } else if inventory != [] {
      assert inventory[0] == Item(name, Count(inventory, name));
    }
  }

  /** `inventory[name] = (inventory[name] || 0) + count`. */
  function AddCount(inventory: seq<Item>, name: string, count: nat): seq<Item> {
    if inventory == [] then [Item(name, count)]
    else if inventory[0].name == name then [inventory[0].(count := inventory[0].count + count)] + inventory[1..]
    else [inventory[0]] + AddCount(inventory[1..], name, count)
  }

  /** Adding to one name changes the count of that name by exactly `count` and no other. */
  lemma {:induction false} CountAfterAdd(inventory: seq<Item>, name: string, count: nat, other: string)
    ensures Count(AddCount(inventory, name, count), other) == Count(inventory, other) + (if other == name then count else 0)
  {
    if inventory != [] && inventory[0].name != name {
      CountAfterAdd(inventory[1..], name, count, other);
    }
  }

  /** Object key order: an existing name keeps its place and a new one goes at the end. */
  lemma {:induction false} AddCountKeepsOrder(inventory: seq<Item>, name: string, count: nat)
    ensures var r := AddCount(inventory, name, count);
            && (HasItem(inventory, name) ==> |r| == |inventory|)
            && (!HasItem(inventory, name) ==> r == inventory + [Item(name, count)])
            && forall i :: 0 <= i < |inventory| ==> r[i].name == inventory[i].name
  {
    if inventory != [] && inventory[0].name != name {
      var rest := inventory[1..];
      AddCountKeepsOrder(rest, name, count);
      assert HasItem(inventory, name) ==> HasItem(rest, name) by {
        if HasItem(inventory, name) {
          var i :| 0 <= i < |inventory| && inventory[i].name == name;
          assert rest[i - 1].name == name;
        }
      }
      assert HasItem(rest, name) ==> HasItem(inventory, name) by {
        if HasItem(rest, name) {
          var i :| 0 <= i < |rest| && rest[i].name == name;
          assert inventory[i + 1].name == name;
        }
      }
    } else if inventory != [] {
      assert inventory[0].name == name;
    }
  }

  /** No name is ever listed twice in the inventory. */
  lemma AddCountKeepsUnique(inventory: seq<Item>, name: string, count: nat)
    requires UniqueItems(inventory)
    ensures UniqueItems(AddCount(inventory, name, count))
  {
    AddCountKeepsOrder(inventory, name, count);
    var r := AddCount(inventory, name, count);
    forall i, j | 0 <= i < j < |r| ensures r[i].name != r[j].name {
      if j >= |inventory| {
        assert !HasItem(inventory, name);
        assert r[j].name == name;
        assert inventory[i].name != name;
      }
    }
  }

  /** `fragments[name]`, when present. */
  function FindFragment(fragments: seq<Fragment>, name: string): (r: Option<Fragment>)
    ensures r.Some? ==> r.value.name == name
  {
    if fragments == [] then None
    else if fragments[0].name == name then Some(fragments[0])
    else FindFragment(fragments[1..], name)
  }

  /** The lookup `!fragments[name]` tests: nothing is found exactly when no
      record carries the name, and what is found is the first record that does. */
  lemma {:induction false} FindFragmentFinds(fragments: seq<Fragment>, name: string)
    ensures FindFragment(fragments, name).None? <==> !HasFragment(fragments, name)
    ensures FindFragment(fragments, name).Some? ==>
              exists i :: 0 <= i < |fragments| && fragments[i] == FindFragment(fragments, name).value
                          && forall j :: 0 <= j < i ==> fragments[j].name != name
  {
    if fragments != [] && fragments[0].name != name {
      var rest := fragments[1..];
      FindFragmentFinds(rest, name);
      if HasFragment(fragments, name) {
        var i :| 0 <= i < |fragments| && fragments[i].name == name;
        assert rest[i - 1].name == name;
      }
      if HasFragment(rest, name) {
        var i :| 0 <= i < |rest| && rest[i].name == name;
        assert fragments[i + 1].name == name;
      }
      if FindFragment(rest, name).Some? {
        var i :| 0 <= i < |rest| && rest[i] == FindFragment(rest, name).value
                 && forall j :: 0 <= j < i ==> rest[j].name != name;
        assert fragments[i + 1] == FindFragment(fragments, name).value;
        assert forall j :: 0 <= j < i + 1 ==> fragments[j].name != name by {
          forall j | 0 <= j < i + 1 ensures fragments[j].name != name {
            if j > 0 { assert fragments[j] == rest[j - 1]; }
          }
        }
      }
    } else if fragments != [] {
      assert HasFragment(fragments, name) by { assert fragments[0].name == name; }
    }
  }

  /** `fragments[f.name] = f`. */
  function PutFragment(fragments: seq<Fragment>, f: Fragment): seq<Fragment> {
    if fragments == [] then [f]
    else if fragments[0].name == f.name then [f] + fragments[1..]
    else [fragments[0]] + PutFragment(fragments[1..], f)
  }

  /** After storing `f`, looking up its name finds `f`, and every other name finds what it found before. */
  lemma {:induction false} FindAfterPut(fragments: seq<Fragment>, f: Fragment, other: string)
    ensures FindFragment(PutFragment(fragments, f), other) == if other == f.name then Some(f) else FindFragment(fragments, other)
  {
    if fragments != [] && fragments[0].name != f.name {
      FindAfterPut(fragments[1..], f, other);
    }
  }

  /** Object key order: an existing name keeps its place and a new one goes at the end. */
  lemma {:induction false} PutFragmentKeepsOrder(fragments: seq<Fragment>, f: Fragment)
    ensures var r := PutFragment(fragments, f);
            && (HasFragment(fragments, f.name) ==> |r| == |fragments|)
            && (!HasFragment(fragments, f.name) ==> r == fragments + [f])
            && forall i :: 0 <= i < |fragments| ==> r[i].name == fragments[i].name
  {
    if fragments != [] && fragments[0].name != f.name {
      var rest := fragments[1..];
      PutFragmentKeepsOrder(rest, f);
      assert HasFragment(fragments, f.name) ==> HasFragment(rest, f.name) by {
        if HasFragment(fragments, f.name) {
          var i :| 0 <= i < |fragments| && fragments[i].name == f.name;
          assert rest[i - 1].name == f.name;
        }
      }
      assert HasFragment(rest, f.name) ==> HasFragment(fragments, f.name) by {
        if HasFragment(rest, f.name) {
          var i :| 0 <= i < |rest| && rest[i].name == f.name;
          assert fragments[i + 1].name == f.name;
        }
      }
    } else if fragments != [] {
      assert fragments[0].name == f.name;
    }
  }

  /** No name is ever listed twice among the fragments. */
  lemma PutFragmentKeepsUnique(fragments: seq<Fragment>, f: Fragment)
    requires UniqueFragments(fragments)
    ensures UniqueFragments(PutFragment(fragments, f))
  {
    PutFragmentKeepsOrder(fragments, f);
    var r := PutFragment(fragments, f);
    forall i, j | 0 <= i < j < |r| ensures r[i].name != r[j].name {
      if j >= |fragments| {
        assert !HasFragment(fragments, f.name);
        assert r[j].name == f.name;
        assert fragments[i].name != f.name;
      }
    }
  }

  /** The fragment record a draw updates: the existing one, or a fresh record
      whose `required` is the catalog's count at the time it is created. */
  function FragmentOf(fragments: seq<Fragment>, name: string, fragmentCount: int): (f: Fragment)
    ensures f.name == name
    ensures FindFragment(fragments, name) == Some(f) || (FindFragment(fragments, name) == None && f == Fragment(name, 0, fragmentCount, 0))
  {
    match FindFragment(fragments, name)
    case Some(f) => f
    case None => Fragment(name, 0, fragmentCount, 0)
  }

  /** The record after one more fragment against a catalog count `fc`: the
      count goes up by one and, on reaching `fc`, is brought below it, the
      whole sets taken out going to `completedSets`. No fragment is lost. */
  function Bump(f: Fragment, fc: int): (g: Fragment)
    requires fc > 0
    ensures g.name == f.name && g.required == f.required && g.current < fc
    ensures g.completedSets == f.completedSets + (f.current + 1) / fc
    ensures g.current + fc * (g.completedSets - f.completedSets) == f.current + 1
  {
    var current := f.current + 1;
    if current >= fc then f.(current := current % fc, completedSets := f.completedSets + current / fc)
    else f.(current := current)
  }

  /** One fragment of a prize whose catalog count is `fragmentCount`: the
      record under `name` is bumped and, when a set completes, the whole sets
      also go to the inventory. */
  function AddFragment(rec: UserRecord, name: string, fragmentCount: int): UserRecord
    requires fragmentCount > 0
  {
    var f := FragmentOf(rec.fragments, name, fragmentCount);
    rec.(fragments := PutFragment(rec.fragments, Bump(f, fragmentCount)),
         inventory := if f.current + 1 >= fragmentCount then AddCount(rec.inventory, name, (f.current + 1) / fragmentCount)
                      else rec.inventory)
  }

  /** The fragment step alone: the record under `name` becomes the bumped
      one, the inventory gains the completed sets, and the wheel progress is
      left alone. */
  lemma AddFragmentEffect(rec: UserRecord, name: string, fc: int)
    requires fc > 0
    ensures var f := FragmentOf(rec.fragments, name, fc);
            var r := AddFragment(rec, name, fc);
            && FindFragment(r.fragments, name) == Some(Bump(f, fc))
            && Count(r.inventory, name) == Count(rec.inventory, name) + (f.current + 1) / fc
            && r.currentWheel == rec.currentWheel && r.spinsCompleted == rec.spinsCompleted
  {
    var f := FragmentOf(rec.fragments, name, fc);
    FindAfterPut(rec.fragments, Bump(f, fc), name);
    if f.current + 1 >= fc {
      CountAfterAdd(rec.inventory, name, (f.current + 1) / fc, name);
    }
  }

  /** What a draw of a prize with catalog entry `config`, recorded under `name`,
      does to the inventory and fragments. */
  function AddWin(rec: UserRecord, name: string, config: Prize): UserRecord {
    if config.notCounted then rec
    else if config.fragmentCount > 0 then AddFragment(rec, name, config.fragmentCount)
    else rec.(inventory := AddCount(rec.inventory, name, 1))
  }

  /** The spin count goes up by one; on reaching the wheel's fixed threshold it
      goes back to 0 and the user moves on to the next wheel. */
  function AdvanceSpin(rec: UserRecord): (r: UserRecord)
    ensures r.inventory == rec.inventory && r.fragments == rec.fragments
    ensures || (r.currentWheel == rec.currentWheel && r.spinsCompleted == rec.spinsCompleted + 1)
            || (r.currentWheel == NextWheel(rec.currentWheel) && r.spinsCompleted == 0)
    ensures 1 <= rec.currentWheel <= WheelCount && rec.spinsCompleted < RequiredSpins(rec.currentWheel) ==>
              1 <= r.currentWheel <= WheelCount && r.spinsCompleted < RequiredSpins(r.currentWheel)
  {
    var spins := rec.spinsCompleted + 1;
    if spins >= RequiredSpins(rec.currentWheel) then rec.(currentWheel := NextWheel(rec.currentWheel), spinsCompleted := 0)
    else rec.(spinsCompleted := spins)
  }

  /** The whole effect of a successful `recordPrize` on the user's record. */
  function ApplyDraw(rec: UserRecord, name: string, config: Prize): (r: UserRecord)
    ensures r.currentWheel == AdvanceSpin(rec).currentWheel && r.spinsCompleted == AdvanceSpin(rec).spinsCompleted
  {
    AdvanceSpin(AddWin(rec, name, config))
  }

  /** `n` draws of the same prize in a row. */
  function DrawRepeatedly(rec: UserRecord, name: string, config: Prize, n: nat): UserRecord
    decreases n
  {
    if n == 0 then rec else DrawRepeatedly(ApplyDraw(rec, name, config), name, config, n - 1)
  }

  /** A counted fragment prize: the fragment count goes up by one and is then
      brought below the catalog's count; the completed sets and the inventory
      grow by the same number of whole sets; `required` keeps the value it had
      when the record was created. */
  lemma FragmentDraw(rec: UserRecord, name: string, config: Prize)
    requires !config.notCounted && config.fragmentCount > 0
    ensures var fc := config.fragmentCount;
            var found := FindFragment(rec.fragments, name);
            var current := if found.Some? then found.value.current else 0;
            var required := if found.Some? then found.value.required else fc;
            var sets := if found.Some? then found.value.completedSets else 0;
            var r := ApplyDraw(rec, name, config);
            && FindFragment(r.fragments, name) == Some(Fragment(name, (current + 1) % fc, required, sets + (current + 1) / fc))
            && (current + 1) % fc < fc
            && Count(r.inventory, name) == Count(rec.inventory, name) + (current + 1) / fc
  {
    var fc := config.fragmentCount;
    var f := FragmentOf(rec.fragments, name, fc);
    FindAfterPut(rec.fragments, Bump(f, fc), name);
    if f.current + 1 >= fc {
      CountAfterAdd(rec.inventory, name, (f.current + 1) / fc, name);
    }
  }

  /** A counted whole prize (fragment count 0 or less) adds exactly one to the
      inventory and leaves the fragments alone. */
  lemma WholePrizeDraw(rec: UserRecord, name: string, config: Prize)
    requires !config.notCounted && config.fragmentCount <= 0
    ensures Count(ApplyDraw(rec, name, config).inventory, name) == Count(rec.inventory, name) + 1
    ensures ApplyDraw(rec, name, config).fragments == rec.fragments
  {
    CountAfterAdd(rec.inventory, name, 1, name);
  }

  /** A prize that is not counted changes neither inventory nor fragments. */
  lemma NotCountedDraw(rec: UserRecord, name: string, config: Prize)
    requires config.notCounted
    ensures ApplyDraw(rec, name, config).inventory == rec.inventory
    ensures ApplyDraw(rec, name, config).fragments == rec.fragments
  {
  }

  /** A draw touches only the entries under the name it is recorded under. */
  lemma OtherNamesUnchanged(rec: UserRecord, name: string, config: Prize, other: string)
    requires other != name
    ensures Count(ApplyDraw(rec, name, config).inventory, other) == Count(rec.inventory, other)
    ensures FindFragment(ApplyDraw(rec, name, config).fragments, other) == FindFragment(rec.fragments, other)
  {
    if !config.notCounted {
      if config.fragmentCount > 0 {
        var fc := config.fragmentCount;
        var f := FragmentOf(rec.fragments, name, fc);
        FindAfterPut(rec.fragments, Bump(f, fc), other);
        if f.current + 1 >= fc {
          CountAfterAdd(rec.inventory, name, (f.current + 1) / fc, other);
        }
      } else {
        CountAfterAdd(rec.inventory, name, 1, other);
      }
    }
  }

  /** Every draw keeps the record invariant; in particular the user stays on one of wheels 1 to 5. */
  lemma ApplyDrawKeepsValid(rec: UserRecord, name: string, config: Prize)
    requires RecordValid(rec)
    ensures RecordValid(ApplyDraw(rec, name, config))
  {
    if !config.notCounted {
      if config.fragmentCount > 0 {
        var fc := config.fragmentCount;
        var f := FragmentOf(rec.fragments, name, fc);
        PutFragmentKeepsUnique(rec.fragments, Bump(f, fc));
        if f.current + 1 >= fc {
          AddCountKeepsUnique(rec.inventory, name, (f.current + 1) / fc);
        }
      } else {
        AddCountKeepsUnique(rec.inventory, name, 1);
      }
    }
  }

  /** Wheel progression: from a valid record on wheel `w` with `s` spins done,
      each of the next `RequiredSpins(w) - s - 1` draws adds a spin on the same
      wheel, and the draw after them moves the user to the next wheel with no
      spins done, whatever the prize. */
  lemma {:induction false} WheelProgression(rec: UserRecord, name: string, config: Prize, n: nat)
    requires RecordValid(rec)
    requires n <= RequiredSpins(rec.currentWheel) - rec.spinsCompleted
    ensures var r := DrawRepeatedly(rec, name, config, n);
            if n < RequiredSpins(rec.currentWheel) - rec.spinsCompleted
            then r.currentWheel == rec.currentWheel && r.spinsCompleted == rec.spinsCompleted + n
            else r.currentWheel == NextWheel(rec.currentWheel) && r.spinsCompleted == 0
    decreases n
  {
    if n > 0 {
      var next := ApplyDraw(rec, name, config);
      ApplyDrawKeepsValid(rec, name, config);
      if n < RequiredSpins(rec.currentWheel) - rec.spinsCompleted {
        assert next.currentWheel == rec.currentWheel && next.spinsCompleted == rec.spinsCompleted + 1;
        WheelProgression(next, name, config, n - 1);
      } else {
        assert n == RequiredSpins(rec.currentWheel) - rec.spinsCompleted;
        if n == 1 {
          assert next.currentWheel == NextWheel(rec.currentWheel) && next.spinsCompleted == 0;
        } else {
          assert next.currentWheel == rec.currentWheel && next.spinsCompleted == rec.spinsCompleted + 1;
          WheelProgression(next, name, config, n - 1);
        }
      }
    }
  }

  /** Fragment overflow: starting with no fragment record for `name`, the first
      `k < fragmentCount` draws of a counted fragment prize leave `k` fragments and
      no completed set or inventory; draw number `fragmentCount` completes one set
      and sets the count back to 0. */
  lemma {:induction false} FragmentCycle(rec: UserRecord, name: string, config: Prize, n: nat)
    requires !config.notCounted && config.fragmentCount > 0
    requires FindFragment(rec.fragments, name).None?
    requires n <= config.fragmentCount
    ensures var r := DrawRepeatedly(rec, name, config, n);
            var fc := config.fragmentCount;
            if n == 0 then r == rec
            else if n < fc then
              FindFragment(r.fragments, name) == Some(Fragment(name, n, fc, 0)) && Count(r.inventory, name) == Count(rec.inventory, name)
            else
              FindFragment(r.fragments, name) == Some(Fragment(name, 0, fc, 1)) && Count(r.inventory, name) == Count(rec.inventory, name) + 1
    decreases n
  {
    if n > 0 {
      var fc := config.fragmentCount;
      var prev := DrawRepeatedly(rec, name, config, n - 1);
      FragmentCycle(rec, name, config, n - 1);
      RepeatUnfoldsLast(rec, name, config, n - 1);
      NextFragment(prev, name, config, n - 1, Count(rec.inventory, name));
    }
  }

  /** One step of the cycle: with `c` fragments held and no set completed, the
      next draw holds `c + 1`, or completes the set on reaching the catalog count. */
  lemma NextFragment(prev: UserRecord, name: string, config: Prize, c: nat, count: nat)
    requires !config.notCounted && config.fragmentCount > 0 && c < config.fragmentCount
    requires FindFragment(prev.fragments, name) == if c == 0 then None else Some(Fragment(name, c, config.fragmentCount, 0))
    requires Count(prev.inventory, name) == count
    ensures var r := ApplyDraw(prev, name, config);
            var fc := config.fragmentCount;
            if c + 1 < fc then
              FindFragment(r.fragments, name) == Some(Fragment(name, c + 1, fc, 0)) && Count(r.inventory, name) == count
            else
              FindFragment(r.fragments, name) == Some(Fragment(name, 0, fc, 1)) && Count(r.inventory, name) == count + 1
  {
    var fc := config.fragmentCount;
    FragmentDraw(prev, name, config);
    if c + 1 < fc {
      assert (c + 1) % fc == c + 1 && (c + 1) / fc == 0;
    } else {
      assert (c + 1) % fc == 0 && (c + 1) / fc == 1;
    }
  }

  /** `n + 1` draws are `n` draws followed by one more. */
  lemma {:induction false} RepeatUnfoldsLast(rec: UserRecord, name: string, config: Prize, n: nat)
    ensures DrawRepeatedly(rec, name, config, n + 1) == ApplyDraw(DrawRepeatedly(rec, name, config, n), name, config)
    decreases n
  {
    if n > 0 {
      RepeatUnfoldsLast(ApplyDraw(rec, name, config), name, config, n - 1);
    }
  }
}
