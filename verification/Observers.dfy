/** VarHelper, ClientHelper and the controller's observation operations, on the database of RamTrees
    (sources/controller/controller_varhelper.go, controller_clienthelper.go, controller.go). */
module Observers {
  import opened Numerals
  import opened DotPaths
  import opened RamTrees
  import opened Cells
  import opened Books
  import opened Balances

  /** The database as the helpers use it: by the names of entries. */
  class EntryStore {
    const db: RamCachedDB
    ghost var cells: Cells
    ghost var book: Book

    ghost function Repr(): set<object>
      reads db
    {
      {this, db} + db.at.Values
    }

    ghost predicate Valid()
      reads `cells, db, db.at.Values
    {
      db.Valid() && Represents(db.Contents(), cells)
    }

    /** The entries hold the book. */
    ghost predicate Settled()
      reads this, db, db.at.Values
    {
      Valid() && Kept(cells, book)
    }

    constructor (db: RamCachedDB)
      requires db.Valid() && db.Contents() == map[[] := ""]
      ensures Settled() && this.db == db && book == Book(map[], map[])
    {
      this.db := db;
      cells := map[];
      book := Book(map[], map[]);
      new;
      EmptyRepresents();
      EmptyKept();
    }

    method Set(k: Key, x: string)
      requires Valid() && KeyOk(k)
      modifies Repr()
      ensures Valid() && fresh(Repr() - old(Repr())) && book == old(book)
      ensures cells == old(cells)[k := x]
    {
      hide TreeOk, ViewOf, Snap, Represents, KeyOk, NameOf, PathOf, SetAt;
      SetCell(db.Contents(), cells, k, x);
      cells := cells[k := x];
      db.Set(NameOf(k), x);
    }

    method Get(k: Key, defaultValue: string) returns (x: string)
      requires Valid() && KeyOk(k)
      modifies Repr()
      ensures Valid() && Repr() == old(Repr()) && book == old(book) && cells == old(cells)
      ensures x == if k in cells then cells[k] else defaultValue
    {
      hide TreeOk, ViewOf, Snap, Represents, KeyOk, NameOf, PathOf;
      GetCell(db.Contents(), cells, k);
      x := db.Get(NameOf(k), defaultValue);
    }

    method HasValue(k: Key) returns (has: bool)
      requires Valid() && KeyOk(k)
      modifies Repr()
      ensures Valid() && Repr() == old(Repr()) && book == old(book) && cells == old(cells)
      ensures has <==> k in cells
    {
      hide TreeOk, ViewOf, Snap, Represents, KeyOk, NameOf, PathOf;
      GetCell(db.Contents(), cells, k);
      has := db.HasValue(NameOf(k));
    }

    /** DeleteValue(name, false) on an entry. */
    method DeleteEntry(k: Key)
      requires Valid() && KeyOk(k)
      modifies Repr()
      ensures Valid() && fresh(Repr() - old(Repr())) && book == old(book)
      ensures cells == old(cells) - {k}
    {
      hide TreeOk, ViewOf, Snap, Represents, KeyOk, NameOf, PathOf, DeleteAt;
      DeleteCell(db.Contents(), cells, k);
      cells := cells - {k};
      db.DeleteValue(NameOf(k), false);
    }

    /** DeleteValue(name, true) on the node of a list entry. */
    method DeleteListNode(name: string, i: nat)
      requires Valid() && VarName(name)
      modifies Repr()
      ensures Valid() && fresh(Repr() - old(Repr())) && book == old(book)
      ensures cells == old(cells) - {ObsClient(name, i), ObsMeta(name, i)}
    {
      hide TreeOk, ViewOf, Snap, Represents, KeyOk, NameOf, PathOf, DeleteAt, VarName, Itoa;
      ListNodeGone(db.Contents(), cells, name, i);
      cells := cells - {ObsClient(name, i), ObsMeta(name, i)};
      db.DeleteValue(name + "._observers.list." + Itoa(i), true);
    }

    /** DeleteValue(name, true) on the node of a client. */
    method DeleteClientNode(client: string)
      requires Valid() && IsSegment(client)
      modifies Repr()
      ensures Valid() && fresh(Repr() - old(Repr())) && book == old(book)
      ensures cells == WithoutClient(old(cells), client)
    {
      hide TreeOk, ViewOf, Snap, Represents, KeyOk, NameOf, PathOf, DeleteAt, IsSegment;
      ClientNodeGone(db.Contents(), cells, client);
      cells := WithoutClient(cells, client);
      db.DeleteValue("internal.clients.byId." + client, true);
    }

    /** The names below the node that holds what a client watches. */
    method WatchNames(client: string) returns (names: set<string>)
      requires Valid() && IsSegment(client)
      modifies Repr()
      ensures Valid() && Repr() == old(Repr()) && book == old(book) && cells == old(cells)
      ensures forall s :: s in names ==> s == "count" || Number(s)
      ensures forall i: nat :: Itoa(i) in names <==> WatchAt(client, i) in cells
    {
      hide TreeOk, ViewOf, Snap, Represents, KeyOk, NameOf, PathOf, IsSegment;
      WatchNamesAre(db.Contents(), cells, client);
      names := db.GetChildNames("internal.clients.byId." + client + ".observing");
    }

    method GetWatched(client: string, number: string, ghost i: nat) returns (x: string)
      requires Valid() && IsSegment(client) && number == Itoa(i)
      modifies Repr()
      ensures Valid() && Repr() == old(Repr()) && book == old(book) && cells == old(cells)
      ensures x == if WatchAt(client, i) in cells then cells[WatchAt(client, i)] else ""
    {
      hide TreeOk, ViewOf, Snap, Represents, PathOf, IsSegment, Itoa;
      GetCell(db.Contents(), cells, WatchAt(client, i));
      x := db.Get("internal.clients.byId." + client + ".observing." + number, "");
    }
  }

  class VarHelper {
    const db: EntryStore
    const name: string

    /** NewControllerVarHelper and SetControlledVarName. */
    constructor (db: EntryStore, vname: string)
      ensures this.db == db && name == Controlled(vname)
    {
      this.db := db;
      name := Controlled(vname);
    }

    method Count() returns (cnt: int)
      requires db.Settled() && VarName(name)
      modifies db.Repr()
      ensures db.Settled() && db.Repr() == old(db.Repr()) && db.book == old(db.book) && db.cells == old(db.cells)
      ensures cnt == |ObsOf(db.book, name)|
    {
      hide EntryStore.Valid, VarName;
      ghost var l := ObsOf(db.book, name);
      assert VarKept(db.cells, name, l);
      CountRead(db.cells, ObsCount(name), |l|);
      var tmp := db.Get(ObsCount(name), "0");
      cnt := GetInt64(tmp);
    }

    method WriteEntry(i: nat, clientID: string, metadata: string)
      requires db.Valid() && VarName(name) && IsSegment(clientID) && IsSegment(metadata)
      modifies db.Repr()
      ensures db.Valid() && fresh(db.Repr() - old(db.Repr())) && db.book == old(db.book)
      ensures db.cells == Placed(old(db.cells), name, Obs(clientID, metadata), i)
    {
      hide EntryStore.Valid, VarName, IsSegment, Itoa;
      db.Set(ObsClient(name, i), clientID);
      db.Set(ObsMeta(name, i), metadata);
      db.Set(ObsById(name, clientID, metadata), Itoa(i));
    }

    /** Appends the pair, registered or not.  The reverse index points to the new entry, so that list and index still
        agree exactly when the pair was not there, which is the controller's guard. */
    method RegisterObservation(clientID: string, metadata: string) returns (obsID: string)
      requires db.Settled() && VarName(name) && IsSegment(clientID) && IsSegment(metadata)
      modifies db.Repr()
      ensures db.Valid() && fresh(db.Repr() - old(db.Repr()))
      ensures var o, l := Obs(clientID, metadata), ObsOf(old(db.book), name);
              && db.book == WithObs(old(db.book), name, l + [o])
              && db.cells == Registered(old(db.cells), name, o, |l|)
              && obsID == Itoa(|l|)
              && (db.Settled() <==> o !in l)
    {
      hide EntryStore.Valid, VarName, IsSegment, VarKept, ClientKept, Kept, OnlyVar;
      ghost var b, cells, o := db.book, db.cells, Obs(clientID, metadata);
      ghost var l := ObsOf(b, name);
      VarOf(cells, b, name);
      var cnt := Count();
      WriteEntry(cnt, clientID, metadata);
      db.Set(ObsCount(name), Itoa(cnt + 1));
      assert db.cells == Registered(cells, name, o, cnt);
      RegisteredBook(cells, b, name, o);
      db.book := WithObs(b, name, l + [o]);
      obsID := Itoa(cnt);
    }

    /** The pair in list entry `i`. */
    method EntryAt(i: nat) returns (client: string, metadata: string)
      requires db.Valid() && VarName(name)
      modifies db.Repr()
      ensures db.Valid() && db.Repr() == old(db.Repr()) && db.book == old(db.book) && db.cells == old(db.cells)
      ensures client == if ObsClient(name, i) in db.cells then db.cells[ObsClient(name, i)] else ""
      ensures metadata == if ObsMeta(name, i) in db.cells then db.cells[ObsMeta(name, i)] else ""
    {
      hide EntryStore.Valid, VarName;
      client := db.Get(ObsClient(name, i), "");
      metadata := db.Get(ObsMeta(name, i), "");
    }

    /** Moves the entries behind `i` one place forward. */
    method ShiftObservations(i: nat, actualCount: nat, ghost l: seq<Obs>)
      requires db.Valid() && VarName(name) && i < |l| == actualCount && VarKept(db.cells, name, l)
      modifies db.Repr()
      ensures db.Valid() && fresh(db.Repr() - old(db.Repr())) && db.book == old(db.book)
      ensures Shifting(db.cells, name, l, i, |l| - 1) && OnlyVar(old(db.cells), db.cells, name)
    {
      hide EntryStore.Valid, VarName, IsSegment, VarKept, Shifting, OnlyVar;
      ghost var cells := db.cells;
      ShiftStart(cells, name, l, i);
      NoDuplicates(cells, name, l);
      SegmentsOf(cells, name, l);
      OnlyVarSame(cells, name);
      for j := i to actualCount - 1
        invariant db.Valid() && fresh(db.Repr() - old(db.Repr())) && db.book == old(db.book)
        invariant Shifting(db.cells, name, l, i, j) && OnlyVar(cells, db.cells, name)
      {
        ghost var before := db.cells;
        ShiftRead(before, name, l, i, j);
        var nextClient, nextMetadata := EntryAt(j + 1);
        WriteEntry(j, nextClient, nextMetadata);
        assert Obs(nextClient, nextMetadata) == l[j + 1];
        ShiftStep(before, name, l, i, j);
        OnlyVarMore(cells, before, db.cells, name);
      }
    }

    /** Takes out entry `i`: the part of internalRemoveObserving behind the match. */
    method RemoveEntry(i: nat, actualCount: nat, clientID: string, metadata: string)
      requires db.Settled() && VarName(name) && i < |ObsOf(db.book, name)| == actualCount
      requires ObsOf(db.book, name)[i] == Obs(clientID, metadata)
      modifies db.Repr()
      ensures db.Settled() && fresh(db.Repr() - old(db.Repr()))
      ensures db.book == WithObs(old(db.book), name, Cut(ObsOf(old(db.book), name), i))
    {
      hide EntryStore.Valid, VarName, IsSegment, VarKept, ClientKept, Kept, OnlyVar, Shifting, ShiftedOut;
      ghost var b, cells, l := db.book, db.cells, ObsOf(db.book, name);
      VarOf(cells, b, name);
      NoDuplicates(cells, name, l);
      SegmentsOf(cells, name, l);
      ghost var o := l[i];
      assert o in l;
      ShiftObservations(i, actualCount, l);
      ghost var shifted := db.cells;
      DropLast(actualCount - 1, clientID, metadata);
      ShiftEnd(shifted, name, l, i);
      OnlyVarMore(cells, shifted, db.cells, name);
      VarChanged(cells, db.cells, b, name, Cut(l, i));
      db.book := WithObs(b, name, Cut(l, i));
    }

    /** Drops the last list node, counts down, and drops the pair's index entry. */
    method DropLast(last: nat, clientID: string, metadata: string)
      requires db.Valid() && VarName(name) && IsSegment(clientID) && IsSegment(metadata)
      modifies db.Repr()
      ensures db.Valid() && fresh(db.Repr() - old(db.Repr())) && db.book == old(db.book)
      ensures db.cells == ShiftedOut(old(db.cells), name, last, Obs(clientID, metadata))
    {
      hide EntryStore.Valid, VarName, IsSegment, Itoa;
      db.DeleteListNode(name, last);
      db.Set(ObsCount(name), Itoa(last));
      db.DeleteEntry(ObsById(name, clientID, metadata));
    }

    method InternalRemoveObserving(clientID: string, metadata: string)
      requires db.Settled() && VarName(name)
      modifies db.Repr()
      ensures db.Settled() && fresh(db.Repr() - old(db.Repr()))
      ensures db.book == WithObs(old(db.book), name, RemoveFirst(ObsOf(old(db.book), name), Obs(clientID, metadata)))
    {
      hide EntryStore.Valid, VarName, IsSegment, VarKept, ClientKept, Kept, OnlyVar;
      ghost var b, cells, o := db.book, db.cells, Obs(clientID, metadata);
      ghost var l := ObsOf(b, name);
      VarOf(cells, b, name);
      NoDuplicates(cells, name, l);
      var actualCount := Count();
      for i := actualCount downto 0
        invariant db.Settled() && db.Repr() == old(db.Repr()) && db.book == b && db.cells == cells
        invariant o !in l[i..]
      {
        EntryRead(cells, name, l, i);
        var currClient, currMetadata := EntryAt(i);
        if currClient == clientID && currMetadata == metadata {
          RemoveFirstAt(l, o, i);
          RemoveEntry(i, actualCount, clientID, metadata);
          return;
        }
        assert l[i..] == [l[i]] + l[i + 1..];
      }
      assert l[0..] == l;
      RemoveFirstNone(l, o);
      OnlyVarSame(cells, name);
      VarChanged(cells, cells, b, name, l);
      db.book := WithObs(b, name, l);
    }

    method RemoveObservationByClientAndMetadata(clientID: string, metadata: string)
      requires db.Settled() && VarName(name)
      modifies db.Repr()
      ensures db.Settled() && fresh(db.Repr() - old(db.Repr()))
      ensures db.book == WithObs(old(db.book), name, RemoveFirst(ObsOf(old(db.book), name), Obs(clientID, metadata)))
    {
      InternalRemoveObserving(clientID, metadata);
    }

    /** Removes the client's pairs from the end of the list on; what is left is the filtered list. */
    method RemoveAllClientObservations(clientID: string)
      requires db.Settled() && VarName(name)
      modifies db.Repr()
      ensures db.Settled() && fresh(db.Repr() - old(db.Repr()))
      ensures db.book == WithObs(old(db.book), name, Without(ObsOf(old(db.book), name), clientID))
    {
      hide EntryStore.Valid, VarName, IsSegment, VarKept, ClientKept, Kept, OnlyVar, Without, RemoveFirst;
      ghost var b, l := db.book, ObsOf(db.book, name);
      VarOf(db.cells, b, name);
      NoDuplicates(db.cells, name, l);
      var cnt := Count();
      OnlyVarSame(db.cells, name);
      VarChanged(db.cells, db.cells, b, name, l);
      db.book := WithObs(b, name, l);
      WithoutNone([], clientID);
      assert l == l[..cnt] + [] && l[cnt..] == [];
      for i := cnt downto 0
        invariant db.Settled() && fresh(db.Repr() - old(db.Repr()))
        invariant db.book == WithObs(b, name, l[..i] + Without(l[i..], clientID))
      {
        ghost var now := l[..i + 1] + Without(l[i + 1..], clientID);
        VarOf(db.cells, db.book, name);
        EntryRead(db.cells, name, now, i);
        var client, metadata := EntryAt(i);
        SweepOne(l, i, clientID);
        if client == clientID {
          InternalRemoveObserving(client, metadata);
        }
      }
      assert l[..0] + Without(l[0..], clientID) == Without(l, clientID) by { assert l[0..] == l; }
    }

    /** Whether the pair is in the observer list, as the reverse index tells. */
    method IsClientObserving(clientID: string, metadata: string) returns (observing: bool)
      requires db.Settled() && VarName(name) && IsSegment(clientID) && IsSegment(metadata)
      modifies db.Repr()
      ensures db.Settled() && db.Repr() == old(db.Repr()) && db.book == old(db.book)
      ensures observing <==> Obs(clientID, metadata) in ObsOf(db.book, name)
    {
      hide EntryStore.Valid, VarName, IsSegment, VarKept, ClientKept, Kept;
      VarOf(db.cells, db.book, name);
      IndexTells(db.cells, name, ObsOf(db.book, name), Obs(clientID, metadata));
      observing := db.HasValue(ObsById(name, clientID, metadata));
    }
  }

  /** strings.Contains. */
  predicate Contains(s: string, t: string) {
    t <= s || (s != [] && Contains(s[1..], t))
  }

  lemma {:induction false} ContainsIs(s: string, t: string)
    ensures Contains(s, t) <==> exists i {:trigger s[i..]} :: 0 <= i <= |s| && t <= s[i..]
  {
    if t <= s {
      assert t <= s[0..];
    } else if s != [] {
      ContainsIs(s[1..], t);
      forall i | 0 <= i < |s| ensures s[1..][i..] == s[i + 1..] { }
      if i :| 0 <= i <= |s| && t <= s[i..] { assert i > 0 && s[1..][i - 1..] == s[i..]; }
    }
  }

  lemma {:induction false} ContainsFirst(s: string, t: string)
    requires t != [] && Contains(s, t)
    ensures t[0] in s
  {
    if !(t <= s) { ContainsFirst(s[1..], t); }
  }

  /** The names that GetObservingVars passes over are the count, and never a number. */
  lemma NotCounted(i: nat)
    ensures !Contains(Itoa(i), "count") && !Contains(Itoa(i), "size") && Contains("count", "count")
  {
    hide Itoa;
    assert !IsDigit("count"[0]) && !IsDigit("size"[0]);
    if Contains(Itoa(i), "count") { ContainsFirst(Itoa(i), "count"); }
    if Contains(Itoa(i), "size") { ContainsFirst(Itoa(i), "size"); }
  }

  ghost predicate Injective(order: seq<nat>) {
    forall i, j :: 0 <= i < j < |order| ==> order[i] != order[j]
  }

  /** `order` holds every number below `n` once, and no other. */
  ghost predicate Permutes(order: seq<nat>, n: nat) {
    Injective(order) && forall i: nat :: i in order <==> i < n
  }

  /** The names without their prefix, in this order. */
  ghost predicate TakenFrom(res: seq<string>, order: seq<nat>, w: seq<string>) {
    |res| == |order| && forall j :: 0 <= j < |res| ==> order[j] < |w| && res[j] == Stripped(w[order[j]])
  }

  lemma TakenNone(w: seq<string>)
    ensures Injective([]) && TakenFrom([], [], w)
  {
  }

  lemma TakenMore(res: seq<string>, order: seq<nat>, w: seq<string>, i: nat)
    requires Injective(order) && TakenFrom(res, order, w) && i < |w| && i !in order
    ensures Injective(order + [i]) && TakenFrom(res + [Stripped(w[i])], order + [i], w)
  {
  }

  function StrippedNames(w: seq<string>): set<string> {
    set x | x in w :: Stripped(x)
  }

  class ClientHelper {
    const db: EntryStore
    const clientID: string

    constructor (db: EntryStore, clientID: string)
      ensures this.db == db && this.clientID == clientID
    {
      this.db := db;
      this.clientID := clientID;
    }

    method Count() returns (cnt: int)
      requires db.Settled() && IsSegment(clientID)
      modifies db.Repr()
      ensures db.Settled() && db.Repr() == old(db.Repr()) && db.book == old(db.book) && db.cells == old(db.cells)
      ensures cnt == |WatchedOf(db.book, clientID)|
    {
      hide EntryStore.Valid, IsSegment;
      ghost var w := WatchedOf(db.book, clientID);
      assert ClientKept(db.cells, clientID, w);
      CountRead(db.cells, WatchCount(clientID), |w|);
      var tmp := db.Get(WatchCount(clientID), "0");
      cnt := GetInt64(tmp);
    }

    method RegisterNewObservation(varName: string)
      requires db.Settled() && IsSegment(clientID) && VarName(Leads("vars." + varName))
      modifies db.Repr()
      ensures db.Settled() && fresh(db.Repr() - old(db.Repr()))
      ensures db.book == WithWatched(old(db.book), clientID, WatchedOf(old(db.book), clientID) + ["vars." + varName])
    {
      hide EntryStore.Valid, VarName, IsSegment, Leads, VarKept, ClientKept, Kept, OnlyClient;
      ghost var b, cells, w, x := db.book, db.cells, WatchedOf(db.book, clientID), "vars." + varName;
      ClientOf(cells, b, clientID);
      var curr := Count();
      db.Set(WatchCount(clientID), Itoa(curr + 1));
      db.Set(WatchAt(clientID, curr), "vars." + varName);
      assert db.cells == WatchAdded(cells, clientID, curr, x);
      WatchAddedKept(cells, clientID, w, x);
      ClientChanged(cells, db.cells, b, clientID, w + [x]);
      db.book := WithWatched(b, clientID, w + [x]);
    }

    method FindVarIndexOnObservingVars(varName: string) returns (index: int)
      requires db.Settled() && IsSegment(clientID)
      modifies db.Repr()
      ensures db.Settled() && db.Repr() == old(db.Repr()) && db.book == old(db.book) && db.cells == old(db.cells)
      ensures index == -1 ==> varName !in WatchedOf(db.book, clientID)
      ensures index != -1 ==> 0 <= index < |WatchedOf(db.book, clientID)|
      ensures index != -1 ==> var w := WatchedOf(db.book, clientID); w[index] == varName && varName !in w[..index]
    {
      hide EntryStore.Valid, IsSegment, ClientKept, Kept;
      ghost var w := WatchedOf(db.book, clientID);
      ClientOf(db.cells, db.book, clientID);
      var cnt := Count();
      for i := 0 to cnt
        invariant db.Settled() && db.Repr() == old(db.Repr()) && db.book == old(db.book) && db.cells == old(db.cells)
        invariant varName !in w[..i]
      {
        WatchRead(db.cells, clientID, w, i);
        var v := db.Get(WatchAt(clientID, i), "");
        if v == varName {
          return i;
        }
        assert w[..i + 1] == w[..i] + [w[i]];
      }
      assert w[..cnt] == w;
      index := -1;
    }

    /** Moves the names behind `i` one place forward. */
    method ShiftWatched(i: nat, curr: nat, ghost w: seq<string>)
      requires db.Valid() && IsSegment(clientID) && i < |w| == curr && ClientKept(db.cells, clientID, w)
      modifies db.Repr()
      ensures db.Valid() && fresh(db.Repr() - old(db.Repr())) && db.book == old(db.book)
      ensures WatchShifting(db.cells, clientID, w, i, |w| - 1) && OnlyClient(old(db.cells), db.cells, clientID)
    {
      hide EntryStore.Valid, IsSegment, ClientKept, WatchShifting, OnlyClient;
      ghost var cells := db.cells;
      WatchShiftStart(cells, clientID, w, i);
      OnlyClientSame(cells, clientID);
      for c := i to curr - 1
        invariant db.Valid() && fresh(db.Repr() - old(db.Repr())) && db.book == old(db.book)
        invariant WatchShifting(db.cells, clientID, w, i, c) && OnlyClient(cells, db.cells, clientID)
      {
        ghost var before := db.cells;
        WatchShiftRead(before, clientID, w, i, c);
        var next := db.Get(WatchAt(clientID, c + 1), "");
        db.Set(WatchAt(clientID, c), next);
        WatchShiftStep(before, clientID, w, i, c);
        OnlyClientMore(cells, before, db.cells, clientID);
      }
    }

    /** Takes out the first of the names that equal the variable's. */
    method UnregisterObservation(varName: string)
      requires db.Settled() && IsSegment(clientID)
      modifies db.Repr()
      ensures db.Settled() && fresh(db.Repr() - old(db.Repr()))
      ensures db.book == WithWatched(old(db.book), clientID,
          RemoveFirst(WatchedOf(old(db.book), clientID), "vars." + varName))
    {
      hide EntryStore.Valid, IsSegment, ClientKept, VarKept, Kept, OnlyClient, WatchShifting, RemoveFirst;
      ghost var b, cells, w, x := db.book, db.cells, WatchedOf(db.book, clientID), "vars." + varName;
      ClientOf(cells, b, clientID);
      var curr := Count();
      var idx := FindVarIndexOnObservingVars("vars." + varName);
      if idx > -1 {
        RemoveFirstAt(w, x, idx);
        ShiftWatched(idx, curr, w);
        ghost var shifted := db.cells;
        db.DeleteEntry(WatchAt(clientID, curr - 1));
        db.Set(WatchCount(clientID), Itoa(curr - 1));
        assert db.cells == WatchShiftedOut(shifted, clientID, |w| - 1);
        WatchShiftEnd(shifted, clientID, w, idx);
        OnlyClientMore(cells, shifted, db.cells, clientID);
      } else {
        RemoveFirstNone(w, x);
        OnlyClientSame(cells, clientID);
      }
      ClientChanged(cells, db.cells, b, clientID, RemoveFirst(w, x));
      db.book := WithWatched(b, clientID, RemoveFirst(w, x));
    }

    /** The watched names without their prefix, each as often as it is watched, in an order given by the database. */
    method GetObservingVars() returns (res: seq<string>, ghost order: seq<nat>)
      requires db.Settled() && IsSegment(clientID)
      modifies db.Repr()
      ensures db.Settled() && db.Repr() == old(db.Repr()) && db.book == old(db.book)
      ensures Permutes(order, |WatchedOf(db.book, clientID)|) && TakenFrom(res, order, WatchedOf(db.book, clientID))
    {
      hide EntryStore.Valid, IsSegment, ClientKept, VarKept, Kept, Stripped, Contains, Itoa, VarName, TakenFrom,
          Injective;
      ghost var b, cells, w := db.book, db.cells, WatchedOf(db.book, clientID);
      ClientOf(cells, b, clientID);
      res, order := [], [];
      TakenNone(w);
      var names := db.WatchNames(clientID);
      WatchNumbers(cells, clientID, w, names);
      while names != {}
        invariant db.Settled() && db.Repr() == old(db.Repr()) && db.book == b && db.cells == cells
        invariant forall s :: s in names ==> s == "count" || Number(s)
        invariant forall i: nat :: (Itoa(i) in names ==> i < |w|) && (i in order ==> i < |w|)
        invariant forall i: nat :: i < |w| ==> (Itoa(i) in names <==> i !in order)
        invariant Injective(order) && TakenFrom(res, order, w)
        decreases |names|
      {
        var c :| c in names;
        ghost var before := names;
        names := names - {c};
        NotCounted(0);
        if Contains(c, "count") || Contains(c, "size") {
          forall i: nat ensures c != Itoa(i) { NotCounted(i); }
          continue;
        }
        ghost var i: nat :| c == Itoa(i);
        WatchRead(cells, clientID, w, i);
        var curr := db.GetWatched(clientID, c, i);
        forall j: nat ensures Itoa(j) in names <==> Itoa(j) in before && j != i {
          if Itoa(j) == c { ItoaInjective(i, j); }
        }
        TakenMore(res, order, w, i);
        res := res + [Stripped(curr)];
        order := order + [i];
      }
    }

    /** Everything stored about the client is dropped. */
    method RemoveClientFromObservationSystem()
      requires db.Settled() && IsSegment(clientID)
      modifies db.Repr()
      ensures db.Settled() && fresh(db.Repr() - old(db.Repr()))
      ensures db.book == old(db.book).(watched := old(db.book).watched - {clientID})
    {
      hide EntryStore.Valid, IsSegment, Kept;
      ghost var b, cells := db.book, db.cells;
      db.DeleteClientNode(clientID);
      db.book := b.(watched := b.watched - {clientID});
      ClientDropped(cells, b, clientID);
    }
  }

  /** The observation side of TheController. */
  class Controller {
    const db: EntryStore

    constructor (db: EntryStore)
      ensures this.db == db
    {
      this.db := db;
    }

    method ObserveVar(varName: string, clientID: string, metadata: string)
      requires db.Settled() && VarName(Controlled(varName)) && IsSegment(clientID) && IsSegment(metadata)
      modifies db.Repr()
      ensures db.Settled() && fresh(db.Repr() - old(db.Repr()))
      ensures db.book == Observed(old(db.book), varName, Obs(clientID, metadata))
    {
      hide EntryStore.Settled, EntryStore.Valid, VarName, IsSegment, Leads, Registered;
      var vh := new VarHelper(db, varName);
      var observing := vh.IsClientObserving(clientID, metadata);
      if !observing {
        var client := new ClientHelper(db, clientID);
        var obsID := vh.RegisterObservation(clientID, metadata);
        WatchedName(varName);
        client.RegisterNewObservation(varName);
      }
    }

    method StopObservingVar(varName: string, clientID: string, metadata: string)
      requires db.Settled() && VarName(Controlled(varName)) && IsSegment(clientID)
      modifies db.Repr()
      ensures db.Settled() && fresh(db.Repr() - old(db.Repr()))
      ensures db.book == Stopped(old(db.book), varName, Obs(clientID, metadata))
    {
      hide EntryStore.Settled, VarName, IsSegment;
      var vh := new VarHelper(db, varName);
      vh.RemoveObservationByClientAndMetadata(clientID, metadata);
      var ch := new ClientHelper(db, clientID);
      ch.UnregisterObservation(varName);
    }

    method DeleteClient(clientID: string)
      requires db.Settled() && IsSegment(clientID)
      modifies db.Repr()
      ensures db.Settled() && fresh(db.Repr() - old(db.Repr()))
      ensures db.book == Deleted(old(db.book), clientID)
    {
      hide EntryStore.Settled, EntryStore.Valid, VarName, IsSegment, Controlled, Stripped, Swept;
      ghost var b := db.book;
      ghost var w := WatchedOf(b, clientID);
      var ch := new ClientHelper(db, clientID);
      LedNames(db, clientID);
      var vars, order := ch.GetObservingVars();
      OrderCovers(w, vars, order);
      SweptNone(b, clientID);
      ghost var names: set<string> := {};
      for i := 0 to |vars|
        invariant db.Settled() && fresh(db.Repr() - old(db.Repr()))
        invariant names == (set v | v in vars[..i] :: Controlled(v)) && db.book == Swept(b, names, clientID)
      {
        assert vars[i] in StrippedNames(w);
        var vh := new VarHelper(db, vars[i]);
        vh.RemoveAllClientObservations(clientID);
        SweptMore(b, names, vh.name, clientID);
        names := names + {vh.name};
        assert vars[..i + 1] == vars[..i] + [vars[i]];
      }
      assert vars[..|vars|] == vars;
      LedStripped(w, vars);
      ch.RemoveClientFromObservationSystem();
    }

    /** What the two helpers answer about a pair and its client. */
    method Query(variable: string, o: Obs) returns (observing: bool, watching: set<string>)
      requires db.Settled() && VarName(Controlled(variable)) && IsSegment(o.client) && IsSegment(o.meta)
      modifies db.Repr()
      ensures observing <==> o in ObsOf(old(db.book), Controlled(variable))
      ensures watching == StrippedNames(WatchedOf(old(db.book), o.client))
    {
      hide EntryStore.Settled, VarName, IsSegment, Controlled, Stripped;
      ghost var w := WatchedOf(db.book, o.client);
      var vh := new VarHelper(db, variable);
      observing := vh.IsClientObserving(o.client, o.meta);
      var client := new ClientHelper(db, o.client);
      var vars, order := client.GetObservingVars();
      OrderCovers(w, vars, order);
      watching := set v | v in vars;
    }

    method Execute(op: Op)
      requires db.Settled() && OpOk(op)
      modifies db.Repr()
      ensures db.Settled() && fresh(db.Repr() - old(db.Repr()))
      ensures db.book == Step(old(db.book), op)
    {
      hide EntryStore.Settled, VarName, IsSegment, Observed, Stopped, Deleted;
      match op {
        case Observe(v, o) => ObserveVar(v, o.client, o.meta);
        case Stop(v, o) => StopObservingVar(v, o.client, o.meta);
        case Delete(c) => DeleteClient(c);
      }
    }
  }

  lemma WatchedName(v: string)
    requires VarName(Controlled(v))
    ensures v != [] && Leads("vars." + v) == Controlled(v)
  {
    if v == [] { BareVars(); }
    LeadsBack(v);
  }

  lemma BareVars()
    ensures !VarName("vars.")
  {
    assert "vars." == "vars" + ".";
    PathOfOne("vars");
  }

  /** Every name a client watches leads to the name of a variable. */
  lemma LedNames(db: EntryStore, c: string)
    requires db.Settled() && IsSegment(c)
    ensures forall v :: v in StrippedNames(WatchedOf(db.book, c)) ==> VarName(Controlled(v))
  {
    hide VarName, IsSegment, Stripped, Controlled;
    var w := WatchedOf(db.book, c);
    assert ClientKept(db.cells, c, w);
    forall v | v in StrippedNames(w) ensures VarName(Controlled(v)) {
      var i :| 0 <= i < |w| && Stripped(w[i]) == v;
      assert WatchKept(db.cells, c, w, i);
    }
  }

  lemma {:induction false} PermutesLength(order: seq<nat>, n: nat)
    requires Permutes(order, n)
    ensures |order| == n
    decreases n
  {
    if n == 0 {
      assert forall k :: 0 <= k < |order| ==> order[k] in order;
    } else {
      assert n - 1 in order;
      var j :| 0 <= j < |order| && order[j] == n - 1;
      var rest := order[..j] + order[j + 1..];
      assert forall k :: 0 <= k < |rest| ==> rest[k] == order[if k < j then k else k + 1];
      forall i: nat ensures i in rest <==> i < n - 1 {
        if i in rest { assert i in order; }
        if i < n - 1 { assert i in order; }
      }
      PermutesLength(rest, n - 1);
    }
  }

  /** A client's names are answered each as often as it is watched. */
  lemma OrderCovers(w: seq<string>, vars: seq<string>, order: seq<nat>)
    requires Permutes(order, |w|) && TakenFrom(vars, order, w)
    ensures (set v | v in vars) == StrippedNames(w) && |vars| == |w|
  {
    hide Stripped;
    PermutesLength(order, |w|);
    forall x | x in w ensures Stripped(x) in vars {
      var i :| 0 <= i < |w| && w[i] == x;
      assert i in order;
      var j :| 0 <= j < |order| && order[j] == i;
      assert vars[j] == Stripped(x);
    }
    forall j | 0 <= j < |vars| ensures vars[j] in StrippedNames(w) {
      assert w[order[j]] in w;
    }
  }

  lemma LedStripped(w: seq<string>, vars: seq<string>)
    requires (set v | v in vars) == StrippedNames(w)
    ensures (set v | v in vars :: Controlled(v)) == Led(w)
  {
    hide Stripped, Controlled;
    forall x | x in w ensures Leads(x) in (set v | v in vars :: Controlled(v)) {
      assert Stripped(x) in StrippedNames(w);
      assert Stripped(x) in (set v | v in vars);
    }
    forall v | v in vars ensures Controlled(v) in Led(w) {
      assert v in StrippedNames(w);
    }
  }

  ghost predicate OpOk(op: Op) {
    match op
    case Observe(v, o) => VarName(Controlled(v)) && IsSegment(o.client) && IsSegment(o.meta)
    case Stop(v, o) => VarName(Controlled(v)) && IsSegment(o.client)
    case Delete(c) => IsSegment(c)
  }

  lemma OpNamed(op: Op)
    requires OpOk(op) && !op.Delete?
    ensures op.v != []
  {
    hide VarName, IsSegment;
    WatchedName(op.v);
  }

  method NewStore() returns (store: EntryStore)
    ensures store.Settled() && fresh(store.Repr()) && store.book == Book(map[], map[])
  {
    hide EntryStore.Settled, TreeOk, Snap, ViewOf;
    var db := new RamCachedDB();
    store := new EntryStore(db);
  }

  /** In every book that a run leads to, the names that clients watch are those of variables behind "vars.". */
  lemma {:induction false} WatchedPrefixed(ops: seq<Op>, c: string, x: string)
    requires (forall op :: op in ops ==> OpOk(op)) && x in WatchedOf(After(Book(map[], map[]), ops), c)
    ensures "vars." <= x && |x| > 5
    decreases |ops|
  {
    hide VarName, IsSegment, Controlled;
    if ops != [] {
      var rest, op := ops[..|ops| - 1], ops[|ops| - 1];
      assert op in ops && forall o :: o in rest ==> o in ops;
      var b := After(Book(map[], map[]), rest);
      if !op.Delete? { OpNamed(op); }
      StepWatched(b, op, c, x);
      if x in WatchedOf(b, c) { WatchedPrefixed(rest, c, x); }
    }
  }

  /** A step brings a client no watched name but that of an observation. */
  lemma StepWatched(b: Book, op: Op, c: string, x: string)
    requires x in WatchedOf(Step(b, op), c)
    ensures x in WatchedOf(b, c) || (op.Observe? && op.o.client == c && x == "vars." + op.v)
  {
    if op.Stop? { RemovedIn(WatchedOf(b, op.o.client), "vars." + op.v, x); }
  }

  lemma {:induction false} RemovedIn(w: seq<string>, y: string, x: string)
    ensures x in RemoveFirst(w, y) ==> x in w
  {
    if w != [] && w[0] != y { RemovedIn(w[1..], y, x); }
  }

  /** Without their prefix they are the names that were observed. */
  lemma StrippedAre(w: seq<string>, v: string)
    requires forall x :: x in w ==> "vars." <= x && |x| > 5
    ensures v in StrippedNames(w) <==> v != "" && "vars." + v in w
  {
    hide Stripped;
    forall x | x in w ensures Stripped(x) != "" && x == "vars." + Stripped(x) {
      assert x == "vars." + x[5..];
      StrippedBack(x[5..]);
    }
    if v != "" { StrippedBack(v); }
  }

  /** A run from an empty database, and what it leaves behind: whether a pair is observing a variable and which names
      a client watches are as in the book that the run leads to; the two sides are in step exactly when all stops
      matched. */
  method RunObservations(ops: seq<Op>, variable: string, o: Obs) returns (observing: bool, watching: set<string>)
    requires (forall op :: op in ops ==> OpOk(op)) && OpOk(Observe(variable, o))
    ensures var b := Book(map[], map[]);
            && (observing <==> o in ObsOf(After(b, ops), Controlled(variable)))
            && watching == StrippedNames(WatchedOf(After(b, ops), o.client))
            && (forall v :: v in watching <==> v != "" && "vars." + v in WatchedOf(After(b, ops), o.client))
            && (AlwaysBalanced(b, ops) <==> Matched(b, ops))
  {
    hide EntryStore.Settled, AlwaysBalanced, Matched, Step, Controlled, VarName, IsSegment, StrippedNames;
    var store := NewStore();
    ghost var b := Book(map[], map[]);
    var controller := new Controller(store);
    for i := 0 to |ops|
      invariant store.Settled() && fresh(store.Repr()) && store.book == After(b, ops[..i])
    {
      assert ops[i] in ops && ops[..i + 1][..i] == ops[..i];
      controller.Execute(ops[i]);
    }
    assert ops[..|ops|] == ops;
    EmptyBalanced();
    forall i | 0 <= i < |ops| && !ops[i].Delete? ensures ops[i].v != [] { OpNamed(ops[i]); }
    RunBalanced(b, ops);
    observing, watching := controller.Query(variable, o);
    ghost var w := WatchedOf(After(b, ops), o.client);
    forall x | x in w ensures "vars." <= x && |x| > 5 { WatchedPrefixed(ops, o.client, x); }
    forall v ensures v in watching <==> v != "" && "vars." + v in w { StrippedAre(w, v); }
  }
}
