/** The slot table of event.c on values: rows with holes, read as a finite map from descriptors. */
module EventRows {

  datatype Option<+T> = None | Some(value: T)

  /** Slot i of `pfds` and of `events` side by side; fd -1 marks a free slot. */
  datatype Row<C, D> = Row(fd: int, mask: int, revents: int, callback: Option<C>, data: Option<D>)

  /** What a registration is to its owner. */
  datatype Entry<C, D> = Entry(mask: int, callback: Option<C>, data: Option<D>)

  function EntryOf<C, D>(r: Row<C, D>): (res: Entry<C, D>) {
    Entry(r.mask, r.callback, r.data)
  }

  ghost function AsMap<C, D>(rows: seq<Row<C, D>>): (r: map<int, Entry<C, D>>) {
    if rows == [] then map[]
    else
      var n := |rows| - 1;
      var m := AsMap(rows[..n]);
      if rows[n].fd < 0 then m else m[rows[n].fd := EntryOf(rows[n])]
  }

  ghost function Used<C, D>(rows: seq<Row<C, D>>): (r: nat) {
    if rows == [] then 0
    else Used(rows[..|rows| - 1]) + if rows[|rows| - 1].fd < 0 then 0 else 1
  }

  ghost predicate Distinct<C, D>(rows: seq<Row<C, D>>) {
    forall i, j :: 0 <= i < j < |rows| && rows[i].fd >= 0 ==> rows[i].fd != rows[j].fd
  }

  /** A free slot is blank; in particular a poll result never lingers in it. */
  ghost predicate Blank<C, D>(r: Row<C, D>) {
    r.fd == -1 && r.mask == 0 && r.revents == 0 && r.callback == None && r.data == None
  }

  ghost predicate WellFormed<C, D>(rows: seq<Row<C, D>>) {
    && Distinct(rows)
    && forall i :: 0 <= i < |rows| ==>
         (Blank(rows[i]) || (rows[i].fd >= 0 && rows[i].mask != 0 && rows[i].callback.Some?))
  }

  // ---------- the three operations ----------

  ghost predicate IsIndex<C, D>(rows: seq<Row<C, D>>, fd: int, i: int) {
    if i < 0 then forall k :: 0 <= k < |rows| ==> rows[k].fd != fd
    else i < |rows| && rows[i].fd == fd && forall k :: 0 <= k < i ==> rows[k].fd != fd
  }

  /** `event_add` into slot i, or into a new one after the last; the poll result there stays. */
  ghost function Added<C, D>(rows: seq<Row<C, D>>, i: int, fd: int, mask: int, c: C, d: Option<D>): (r: seq<Row<C, D>>)
    requires i < |rows|
  {
    if i < 0 then rows + [Row(fd, mask, 0, Some(c), d)]
    else rows[i := Row(fd, mask, rows[i].revents, Some(c), d)]
  }

  ghost function Modified<C, D>(rows: seq<Row<C, D>>, i: nat, mask: int): (r: seq<Row<C, D>>)
    requires i < |rows|
  {
    rows[i := rows[i].(mask := mask, revents := 0)]
  }

  /** Only a free slot at the very end is given up. */
  ghost function Removed<C, D>(rows: seq<Row<C, D>>, i: nat): (r: seq<Row<C, D>>)
    requires i < |rows|
  {
    if i == |rows| - 1 then rows[..i] else rows[i := Row(-1, 0, 0, None, None)]
  }

  // ---------- they are the operations of a finite map ----------

  /** A descriptor is in the map exactly when some slot holds it. */
  lemma {:induction false} MapHas<C, D>(rows: seq<Row<C, D>>, fd: int)
    requires fd >= 0
    ensures fd in AsMap(rows) <==> exists k :: 0 <= k < |rows| && rows[k].fd == fd
  {
    if rows != [] {
      var n := |rows| - 1;
      MapHas(rows[..n], fd);
      assert rows[n].fd == fd || forall k :: 0 <= k < |rows| && rows[k].fd == fd ==> rows[..n][k].fd == fd;
      assert forall k :: 0 <= k < n ==> rows[..n][k] == rows[k];
    }
  }

  lemma {:induction false} MapKeys<C, D>(rows: seq<Row<C, D>>, fd: int)
    requires fd < 0
    ensures fd !in AsMap(rows)
  {
    if rows != [] {
      MapKeys(rows[..|rows| - 1], fd);
    }
  }

  lemma {:induction false} MapAt<C, D>(rows: seq<Row<C, D>>, i: nat)
    requires Distinct(rows) && i < |rows| && rows[i].fd >= 0
    ensures rows[i].fd in AsMap(rows) && AsMap(rows)[rows[i].fd] == EntryOf(rows[i])
  {
    var n := |rows| - 1;
    if i < n {
      MapAt(rows[..n], i);
    }
  }

  /** Writing a slot that held nothing, or the same descriptor, sets that one key. */
  lemma {:induction false} MapWrite<C, D>(rows: seq<Row<C, D>>, i: nat, r: Row<C, D>)
    requires Distinct(rows) && i < |rows| && r.fd >= 0
    requires rows[i].fd < 0 || rows[i].fd == r.fd
    requires forall k :: 0 <= k < |rows| && k != i ==> rows[k].fd != r.fd
    ensures AsMap(rows[i := r]) == AsMap(rows)[r.fd := EntryOf(r)]
  {
    var n := |rows| - 1;
    if i < n {
      MapWrite(rows[..n], i, r);
      assert rows[i := r][..n] == rows[..n][i := r];
    } else {
      assert rows[i := r][..n] == rows[..n];
    }
  }

  /** Clearing a slot deletes that one key. */
  lemma {:induction false} MapErase<C, D>(rows: seq<Row<C, D>>, i: nat)
    requires Distinct(rows) && i < |rows| && rows[i].fd >= 0
    ensures AsMap(rows[i := Row(-1, 0, 0, None, None)]) == AsMap(rows) - {rows[i].fd}
  {
    var n := |rows| - 1;
    var free: Row<C, D> := Row(-1, 0, 0, None, None);
    assert rows == rows[..n] + [rows[n]];
    if i < n {
      MapErase(rows[..n], i);
      assert rows[i := free][..n] == rows[..n][i := free];
    } else {
      assert rows[i := free][..n] == rows[..n];
      MapHas(rows[..n], rows[n].fd);
      assert forall k :: 0 <= k < n ==> rows[..n][k].fd != rows[n].fd;
    }
  }

  lemma {:induction false} UsedWrite<C, D>(rows: seq<Row<C, D>>, i: nat, r: Row<C, D>)
    requires i < |rows|
    ensures Used(rows[i := r]) == Used(rows) + (if r.fd < 0 then 0 else 1) - (if rows[i].fd < 0 then 0 else 1)
  {
    var n := |rows| - 1;
    if i < n {
      UsedWrite(rows[..n], i, r);
      assert rows[i := r][..n] == rows[..n][i := r];
    } else {
      assert rows[i := r][..n] == rows[..n];
    }
  }

  /** Without a hole every slot is counted; with one, at most all but it. */
  lemma {:induction false} UsedFull<C, D>(rows: seq<Row<C, D>>)
    ensures Used(rows) <= |rows|
    ensures (forall k :: 0 <= k < |rows| ==> rows[k].fd >= 0) ==> Used(rows) == |rows|
  {
    if rows != [] {
      var n := |rows| - 1;
      UsedFull(rows[..n]);
      assert forall k :: 0 <= k < n ==> rows[..n][k] == rows[k];
    }
  }

  lemma {:induction false} UsedIsCard<C, D>(rows: seq<Row<C, D>>)
    requires Distinct(rows)
    ensures Used(rows) == |AsMap(rows)|
  {
    if rows != [] {
      var n := |rows| - 1;
      UsedIsCard(rows[..n]);
      if rows[n].fd >= 0 {
        MapHas(rows[..n], rows[n].fd);
        assert forall k :: 0 <= k < n ==> rows[..n][k].fd != rows[n].fd;
        assert AsMap(rows).Keys == AsMap(rows[..n]).Keys + {rows[n].fd};
      }
    }
  }

  lemma UsedIsCardWf<C, D>(rows: seq<Row<C, D>>)
    requires WellFormed(rows)
    ensures Used(rows) == |AsMap(rows)|
  {
    UsedIsCard(rows);
  }

  lemma AddRefines<C, D>(rows: seq<Row<C, D>>, i: int, fd: int, mask: int, c: C, d: Option<D>)
    requires WellFormed(rows) && IsIndex(rows, fd, -1) && IsIndex(rows, -1, i) && fd >= 0 && mask != 0
    ensures i < |rows|
    ensures var r := Added(rows, i, fd, mask, c, d);
            && WellFormed(r) && AsMap(r) == AsMap(rows)[fd := Entry(mask, Some(c), d)]
            && Used(r) == Used(rows) + 1
            && (i < 0 ==> Used(rows) == |rows|)
  {
    hide AsMap, Used;
    AddedWellFormed(rows, i, fd, mask, c, d);
    hide WellFormed;
    if i < 0 {
      MapAppend(rows, Row(fd, mask, 0, Some(c), d));
      UsedFull(rows);
    } else {
      var r := Row(fd, mask, rows[i].revents, Some(c), d);
      MapWrite(rows, i, r);
      UsedWrite(rows, i, r);
    }
  }

  lemma AddedWellFormed<C, D>(rows: seq<Row<C, D>>, i: int, fd: int, mask: int, c: C, d: Option<D>)
    requires WellFormed(rows) && IsIndex(rows, fd, -1) && IsIndex(rows, -1, i) && fd >= 0 && mask != 0
    ensures i < |rows| && Distinct(rows) && WellFormed(Added(rows, i, fd, mask, c, d))
    ensures i >= 0 ==> rows[i].fd == -1
    ensures i < 0 ==> forall k :: 0 <= k < |rows| ==> rows[k].fd >= 0
  {
    var r := Added(rows, i, fd, mask, c, d);
    var at := if i < 0 then |rows| else i;
    assert forall k :: 0 <= k < |rows| && k != at ==> r[k] == rows[k];
    forall p, q | 0 <= p < q < |r| && r[p].fd >= 0
      ensures r[p].fd != r[q].fd
    {
      if p != at && q != at {
        assert r[p] == rows[p] && r[q] == rows[q];
      }
    }
  }

  lemma MapAppend<C, D>(rows: seq<Row<C, D>>, r: Row<C, D>)
    requires r.fd >= 0
    ensures AsMap(rows + [r]) == AsMap(rows)[r.fd := EntryOf(r)]
    ensures Used(rows + [r]) == Used(rows) + 1
  {
    assert (rows + [r])[..|rows|] == rows;
  }

  lemma ModifyRefines<C, D>(rows: seq<Row<C, D>>, i: nat, mask: int)
    requires WellFormed(rows) && i < |rows| && rows[i].fd >= 0 && mask != 0
    ensures var r := Modified(rows, i, mask); var fd := rows[i].fd;
            && WellFormed(r) && fd in AsMap(rows)
            && AsMap(r) == AsMap(rows)[fd := AsMap(rows)[fd].(mask := mask)]
            && Used(r) == Used(rows)
  {
    MapAt(rows, i);
    MapWrite(rows, i, rows[i].(mask := mask, revents := 0));
    UsedWrite(rows, i, rows[i].(mask := mask, revents := 0));
  }

  lemma RemoveRefines<C, D>(rows: seq<Row<C, D>>, i: nat)
    requires WellFormed(rows) && i < |rows| && rows[i].fd >= 0
    ensures var r := Removed(rows, i);
            WellFormed(r) && AsMap(r) == AsMap(rows) - {rows[i].fd} && Used(r) == Used(rows) - 1
  {
    var free: Row<C, D> := Row(-1, 0, 0, None, None);
    MapErase(rows, i);
    UsedWrite(rows, i, free);
    var n := |rows| - 1;
    if i == n {
      assert rows[i := free][..n] == rows[..n];
      assert AsMap(rows[i := free]) == AsMap(rows[..n]);
      assert Used(rows[i := free]) == Used(rows[..n]);
    }
  }
}
