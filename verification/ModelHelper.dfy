// ModelHelper and ModelHelperPropertyMap as classes over a shared table model.
module ModelHelperClasses {
  import opened Coherence

  lemma Inhabited(roles: set<int>)
    ensures roles == {} || exists role :: role in roles
  {
    if forall role :: role !in roles {
      assert roles == {};
    }
  }

  class TableModel {
    var table: Table

    constructor (table: Table)
      ensures this.table == table
    {
      this.table := table;
    }
  }

  class PropertyMap {
    const row: nat
    const column: nat
    const model: TableModel
    var props: Props

    ghost predicate InSync()
      reads this, model
    {
      Coherent(props, model.table, row, column)
    }

    constructor (row: nat, column: nat, model: TableModel)
      requires NamesOk(model.table)
      ensures this.row == row && this.column == column && this.model == model && InSync()
    {
      this.row, this.column, this.model, props := row, column, model, map[];
      new;
      Update();
    }

    // insert(roleNames[role], data(index, role)), role by role
    method InsertAll(roles: set<int>)
      requires NamesOk(model.table)
      modifies `props
      ensures Wrote(old(props), props, model.table, row, column, roles)
    {
      var t := model.table;
      var left := roles;
      while left != {}
        invariant left <= roles
        invariant Wrote(old(props), props, t, row, column, roles - left)
        decreases |left|
      {
        Inhabited(left);
        var role :| role in left;
        WriteOne(old(props), props, t, roles - left, role);
        props := props[NameOf(t, role) := Data(t, row, column, role)];
        assert roles - (left - {role}) == (roles - left) + {role};
        left := left - {role};
      }
      assert roles - {} == roles;
    }

    lemma WriteOne(before: Props, mid: Props, t: Table, done: set<int>, role: int)
      requires NamesOk(t) && Wrote(before, mid, t, row, column, done)
      ensures Wrote(before, mid[NameOf(t, role) := Data(t, row, column, role)], t, row, column, done + {role})
    {
      var after := mid[NameOf(t, role) := Data(t, row, column, role)];
      forall r | r in done + {role} && r in t.names
        ensures t.names[r] in after && after[t.names[r]] == Data(t, row, column, r)
      {
        if r != role { assert NameOf(t, role) != t.names[r]; }
      }
      forall key | forall r | r in done + {role} :: NameOf(t, r) != key
        ensures (key in after <==> key in before) && (key in before ==> after[key] == before[key])
      {
        assert role in done + {role};
        assert forall r | r in done :: NameOf(t, r) != key;
      }
    }

    method Update()
      requires NamesOk(model.table)
      modifies `props
      ensures Wrote(old(props), props, model.table, row, column, model.table.names.Keys)
      ensures InSync()
    {
      InsertAll(model.table.names.Keys);
    }

    // The slots connected in the constructor, run for one signal.  `now` is what
    // the model already holds when it emits.
    method OnSignal(ch: Change)
      requires NamesOk(model.table) && ch.now == model.table
      modifies `props
      ensures Handles(AsWritten, old(props), props, ch, row, column)
    {
      match ch {
        case Reset(_) => Update();
        case LayoutChanged(_) => Update();
        case DataChanged(top, left, bottom, right, roles, _) =>
          if row >= top && column >= left && row <= bottom && column <= right {
            if roles == [] {
              InsertAll(model.table.names.Keys);
            } else {
              InsertAll(set role | role in roles);
            }
          }
        case RowsInserted(first, _, _) =>
          if row >= first { Update(); }
        case RowsRemoved(first, _, _) =>
          if row >= first { Update(); }
        case ColumnsInserted(first, _, _) =>
          // onColumnsInserted, then onColumnsRemoved
          if column >= first { UpdateTwice(); }
        case ColumnsRemoved(_, _, _) =>
          // no slot is connected
      }
    }

    method UpdateTwice()
      requires NamesOk(model.table)
      modifies `props
      ensures Wrote(old(props), props, model.table, row, column, model.table.names.Keys)
    {
      Update();
      Update();
    }

    // A write from QML, after the model has taken, refused or altered the value
    // and announced what it did: the map keeps what the model now says.
    method StoreUpdated(key: string, input: Variant)
      requires NamesOk(model.table)
      modifies `props
      ensures (forall role | role in model.table.names :: model.table.names[role] != key) ==>
                props == old(props)[key := input]
      ensures forall role | role in model.table.names && model.table.names[role] == key ::
                props == old(props)[key := Data(model.table, row, column, role)]
      ensures old(InSync()) ==> InSync()
    {
      var t := model.table;
      var matching := set role | role in t.names && t.names[role] == key;
      if matching == {} {
        forall role | role in t.names ensures t.names[role] != key {
          assert t.names[role] == key ==> role in matching;
        }
        props := props[key := input];
      } else {
        Inhabited(matching);
        var role :| role in matching;
        props := props[key := Data(t, row, column, role)];
      }
    }
  }

  class ModelHelper {
    const model: TableModel
    var mappers: seq<(nat, PropertyMap)>
    var live: seq<PropertyMap>     // every map still connected to the model

    ghost predicate Distinct(ms: seq<PropertyMap>) {
      forall i, j | 0 <= i < j < |ms| :: ms[i] != ms[j]
    }

    // The listed maps are alive, of column 0, under their own row, one per row;
    // and a live map of column 0 is listed.
    ghost predicate Listed()
      reads this
    {
      (forall i | 0 <= i < |mappers| ::
         mappers[i].1 in live && mappers[i].1.row == mappers[i].0 && mappers[i].1.column == 0) &&
      (forall i, j | 0 <= i < j < |mappers| :: mappers[i].0 != mappers[j].0) &&
      (forall m | m in live && m.column == 0 :: exists i :: 0 <= i < |mappers| && mappers[i].1 == m)
    }

    ghost predicate Valid()
      reads this, model, live
    {
      Distinct(live) && Listed() && NamesOk(model.table) &&
      (forall m | m in live :: m.model == model && m as object != this)
    }

    ghost predicate AllInSync()
      reads this, model, live
      requires Valid()
    {
      forall m | m in live :: m.InSync()
    }

    constructor (model: TableModel)
      requires NamesOk(model.table)
      ensures this.model == model && mappers == [] && live == [] && Valid() && AllInSync()
    {
      this.model, mappers, live := model, [], [];
    }

    method MapperForRow(row: nat) returns (m: PropertyMap?)
      requires Valid()
      ensures m != null ==> m in live && m.row == row && m.column == 0
      ensures m == null ==> forall l | l in live && l.column == 0 :: l.row != row
    {
      var i := 0;
      while i < |mappers|
        invariant 0 <= i <= |mappers| && forall j | 0 <= j < i :: mappers[j].0 != row
      {
        if mappers[i].0 == row {
          return mappers[i].1;
        }
        i := i + 1;
      }
      return null;
    }

    // map(row, column): maps of column 0 are shared, others made anew; a new one
    // agrees with the model.
    method Map(row: nat, column: nat) returns (m: PropertyMap)
      requires Valid()
      modifies this
      ensures Valid() && (old(AllInSync()) ==> AllInSync())
      ensures m in live && m.row == row && m.column == column && (fresh(m) ==> m.InSync())
      ensures live == old(live) + if m in old(live) then [] else [m]
      ensures column == 0 && (exists l :: l in old(live) && l.column == 0 && l.row == row) ==>
                m in old(live) && live == old(live)
      ensures column != 0 ==> fresh(m)
    {
      if column == 0 {
        var found := MapperForRow(row);
        if found != null {
          return found;
        }
        m := new PropertyMap(row, 0, model);
        ListMapper(m);
      } else {
        m := new PropertyMap(row, column, model);
        live := live + [m];
      }
    }

    method ListMapper(m: PropertyMap)
      requires Valid() && m !in live && m.model == model && m.column == 0 && m.InSync()
      requires forall l | l in live && l.column == 0 :: l.row != m.row
      modifies this
      ensures Valid() && (old(AllInSync()) ==> AllInSync()) && live == old(live) + [m]
    {
      ghost var before := mappers;
      mappers := mappers + [(m.row, m)];
      live := live + [m];
      assert mappers[|before|].1 == m;
      assert forall i | 0 <= i < |before| :: mappers[i] == before[i] && before[i].1 in live;
      ListedOneMore(before, old(live), m);
    }

    lemma ListedOneMore(ms: seq<(nat, PropertyMap)>, ls: seq<PropertyMap>, m: PropertyMap)
      requires forall l | l in ls && l.column == 0 :: exists i :: 0 <= i < |ms| && ms[i].1 == l
      ensures var all := ms + [(m.row, m)];
        forall l | l in ls + [m] && l.column == 0 :: exists i :: 0 <= i < |all| && all[i].1 == l
    {
      var all := ms + [(m.row, m)];
      forall l | l in ls + [m] && l.column == 0 ensures exists i :: 0 <= i < |all| && all[i].1 == l {
        if l in ls {
          var i :| 0 <= i < |ms| && ms[i].1 == l;
          assert all[i].1 == l;
        } else {
          assert all[|ms|].1 == l;
        }
      }
    }

    // A map is destroyed: it stops listening and leaves the list.
    method RemoveMapper(m: PropertyMap)
      requires Valid() && m in live
      modifies this
      ensures Valid() && (old(AllInSync()) ==> AllInSync()) && m !in live
      ensures forall l :: l in live <==> l in old(live) && l != m
    {
      var k :| 0 <= k < |live| && live[k] == m;
      ghost var before := live;
      live := live[..k] + live[k + 1..];
      WithoutOne(before, k);
      EraseMapper(m);
    }

    lemma WithoutOne(ms: seq<PropertyMap>, k: nat)
      requires Distinct(ms) && k < |ms|
      ensures var r := ms[..k] + ms[k + 1..];
        Distinct(r) && ms[k] !in r && (forall l | l in r :: l in ms) && forall l | l in ms && l != ms[k] :: l in r
    {
      var r := ms[..k] + ms[k + 1..];
      assert forall j | 0 <= j < |r| :: r[j] == ms[if j < k then j else j + 1];
      forall l | l in ms && l != ms[k] ensures l in r {
        var j :| 0 <= j < |ms| && ms[j] == l;
        assert r[if j < k then j else j - 1] == l;
      }
    }

    // removeMapper: find by pointer, erase if found
    method EraseMapper(m: PropertyMap)
      requires m !in live
      requires forall i | 0 <= i < |mappers| :: mappers[i].1 == m || mappers[i].1 in live
      requires forall i | 0 <= i < |mappers| :: mappers[i].1.row == mappers[i].0 && mappers[i].1.column == 0
      requires forall i, j | 0 <= i < j < |mappers| :: mappers[i].0 != mappers[j].0
      requires forall l | l in live && l.column == 0 :: exists i :: 0 <= i < |mappers| && mappers[i].1 == l
      modifies `mappers
      ensures Listed()
    {
      var i := 0;
      while i < |mappers|
        invariant 0 <= i <= |mappers| && mappers == old(mappers)
        invariant forall j | 0 <= j < i :: mappers[j].1 != m
      {
        if mappers[i].1 == m {
          mappers := mappers[..i] + mappers[i + 1..];
          assert forall j | 0 <= j < |mappers| :: mappers[j] == old(mappers)[if j < i then j else j + 1];
          forall l | l in live && l.column == 0 ensures exists j :: 0 <= j < |mappers| && mappers[j].1 == l {
            var j :| 0 <= j < |old(mappers)| && old(mappers)[j].1 == l;
            assert mappers[if j < i then j else j - 1].1 == l;
          }
          return;
        }
        i := i + 1;
      }
    }

    // The model has changed and emits its signal; every live map hears it.
    method Emit(ch: Change)
      requires Valid() && Truthful(model.table, ch)
      modifies model, live
      ensures model.table == ch.now && Valid()
      ensures forall m | m in live :: Handles(AsWritten, old(m.props), m.props, ch, m.row, m.column)
      ensures old(AllInSync()) ==>
                forall m | m in live :: m.InSync() <==> Harmless(old(model.table), ch, m.row, m.column)
      ensures ch.Reset? || ch.LayoutChanged? ==> AllInSync()
    {
      ghost var was := model.table;
      model.table := ch.now;
      var i := 0;
      while i < |live|
        invariant 0 <= i <= |live| && model.table == ch.now
        invariant forall j | 0 <= j < i ::
          Handles(AsWritten, old(live[j].props), live[j].props, ch, live[j].row, live[j].column)
        invariant forall j | i <= j < |live| :: live[j].props == old(live[j].props)
      {
        live[i].OnSignal(ch);
        i := i + 1;
      }
      if ch.Reset? || ch.LayoutChanged? {
        forall m | m in live ensures m.InSync() {
          FullUpdateRestores(AsWritten, old(m.props), m.props, ch, m.row, m.column);
        }
      }
      if old(AllInSync()) {
        forall m | m in live ensures m.InSync() <==> Harmless(was, ch, m.row, m.column) {
          SignalExactly(AsWritten, was, old(m.props), m.props, ch, m.row, m.column);
        }
      }
    }
  }
}
