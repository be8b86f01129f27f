// A table model, the changes it announces, and the property maps that cache one
// cell of it each.
module Coherence {

  datatype Variant = Invalid | Text(text: string)

  // roleNames() is `names`.  A cell without an entry, like one outside the table,
  // holds the invalid QVariant.
  datatype Table = Table(rows: nat, columns: nat, names: map<int, string>, cells: map<(nat, nat, int), Variant>)

  function Data(t: Table, row: nat, column: nat, role: int): Variant {
    if row < t.rows && column < t.columns && (row, column, role) in t.cells then t.cells[(row, column, role)]
    else Invalid
  }

  // roleNames()[role]: an unknown role reads as the empty name.
  function NameOf(t: Table, role: int): string {
    if role in t.names then t.names[role] else ""
  }

  // Different roles have different names, none of them empty.
  ghost predicate NamesOk(t: Table) {
    (forall a, b | a in t.names && b in t.names && t.names[a] == t.names[b] :: a == b) &&
    forall a | a in t.names :: t.names[a] != ""
  }

  // ------------------------------------------------------------ changes of a model

  // What the model has become, and the signal that says so.
  datatype Change =
    | Reset(now: Table)
    | LayoutChanged(now: Table)
    | DataChanged(top: nat, left: nat, bottom: nat, right: nat, roles: seq<int>, now: Table)
    | RowsInserted(first: nat, last: nat, now: Table)
    | RowsRemoved(first: nat, last: nat, now: Table)
    | ColumnsInserted(first: nat, last: nat, now: Table)
    | ColumnsRemoved(first: nat, last: nat, now: Table)

  predicate Covers(ch: Change, row: nat, column: nat)
    requires ch.DataChanged?
  {
    ch.top <= row <= ch.bottom && ch.left <= column <= ch.right
  }

  predicate Mentions(ch: Change, role: int)
    requires ch.DataChanged?
  {
    ch.roles == [] || role in ch.roles
  }

  // Cell (r, c) of `now` reads as cell (r2, c2) of `was`.
  ghost predicate SameCell(now: Table, r: nat, c: nat, was: Table, r2: nat, c2: nat) {
    forall role :: Data(now, r, c, role) == Data(was, r2, c2, role)
  }

  // Where a row or column index was before n of them went at first.
  function Before(i: nat, first: nat, last: nat): nat
    requires first <= last
  {
    if i < first then i else i + (last - first + 1)
  }

  // The signal concerns every cell there is, so role names can change with it: a
  // model may know its roles only once its first rows are in.
  predicate ConcernsAll(ch: Change) {
    match ch
    case Reset(_) => true
    case LayoutChanged(_) => true
    case RowsInserted(first, _, _) => first == 0
    case RowsRemoved(first, _, _) => first == 0
    case ColumnsInserted(first, _, _) => first == 0
    case _ => false
  }

  // The signal tells the truth: it accounts for every difference.
  ghost predicate Truthful(was: Table, ch: Change) {
    var now := ch.now;
    NamesOk(now) && (ConcernsAll(ch) || now.names == was.names) &&
    match ch
    case DataChanged(_, _, _, _, _, _) => ChangesWithin(was, ch)
    case RowsInserted(first, last, _) =>
      first <= last && forall r: nat, c: nat | r < first :: SameCell(now, r, c, was, r, c)
    case RowsRemoved(first, last, _) =>
      first <= last < was.rows && forall r: nat, c: nat :: SameCell(now, r, c, was, Before(r, first, last), c)
    case ColumnsInserted(first, last, _) =>
      first <= last && forall r: nat, c: nat | c < first :: SameCell(now, r, c, was, r, c)
    case ColumnsRemoved(first, last, _) =>
      first <= last < was.columns && forall r: nat, c: nat :: SameCell(now, r, c, was, r, Before(c, first, last))
    case _ => true
  }

  ghost predicate ChangesWithin(was: Table, ch: Change)
    requires ch.DataChanged?
  {
    forall r: nat, c: nat, role | !Covers(ch, r, c) || !Mentions(ch, role) ::
      Data(ch.now, r, c, role) == Data(was, r, c, role)
  }

  // ------------------------------------------------------------------- one mapper

  type Props = map<string, Variant>

  // The map agrees with the model on every current role.
  ghost predicate Coherent(props: Props, t: Table, row: nat, column: nat) {
    forall role | role in t.names :: t.names[role] in props && props[t.names[role]] == Data(t, row, column, role)
  }

  // The empty name has the data of one of the roles that have no name.
  ghost predicate Unnamed(after: Props, t: Table, row: nat, column: nat, roles: set<int>) {
    "" in after && exists role :: role in roles && role !in t.names && after[""] == Data(t, row, column, role)
  }

  // insert(roleNames[role], data(index, role)) has run for each of the roles.
  ghost predicate Wrote(before: Props, after: Props, t: Table, row: nat, column: nat, roles: set<int>) {
    (forall role | role in roles && role in t.names ::
       t.names[role] in after && after[t.names[role]] == Data(t, row, column, role)) &&
    (roles <= t.names.Keys || Unnamed(after, t, row, column, roles)) &&
    (forall key | (forall role | role in roles :: NameOf(t, role) != key) ::
       (key in after <==> key in before) && (key in before ==> after[key] == before[key]))
  }

  // The connections in the constructor.  As written, columnsInserted is connected
  // to both column handlers and columnsRemoved to none.
  datatype Wiring = AsWritten | Intended

  // The roles a mapper rewrites on a signal.
  function Touched(w: Wiring, ch: Change, row: nat, column: nat): set<int> {
    var all := ch.now.names.Keys;
    match ch
    case Reset(_) => all
    case LayoutChanged(_) => all
    case DataChanged(_, _, _, _, roles, _) =>
      if !Covers(ch, row, column) then {} else if roles == [] then all else set role | role in roles
    case RowsInserted(first, _, _) => if row >= first then all else {}
    case RowsRemoved(first, _, _) => if row >= first then all else {}
    case ColumnsInserted(first, _, _) => if column >= first then all else {}
    case ColumnsRemoved(first, _, _) => if w.Intended? && column >= first then all else {}
  }

  ghost predicate Handles(w: Wiring, before: Props, after: Props, ch: Change, row: nat, column: nat) {
    Wrote(before, after, ch.now, row, column, Touched(w, ch, row, column))
  }

  // What a mapper makes of a signal as connected: it rewrites every role on a reset, a
  // change of layout, and rows or columns inserted, or rows removed, at its own place
  // or before; on a data change the roles mentioned, if its cell is in the range; and
  // nothing otherwise, columns removed included.
  lemma SignalDoes(before: Props, after: Props, ch: Change, row: nat, column: nat)
    requires Handles(AsWritten, before, after, ch, row, column)
    ensures match ch
      case Reset(now) => Coherent(after, now, row, column)
      case LayoutChanged(now) => Coherent(after, now, row, column)
      case RowsInserted(first, _, now) => if first <= row then Coherent(after, now, row, column) else after == before
      case RowsRemoved(first, _, now) => if first <= row then Coherent(after, now, row, column) else after == before
      case ColumnsInserted(first, _, now) =>
        if first <= column then Coherent(after, now, row, column) else after == before
      case ColumnsRemoved(_, _, _) => after == before
      case DataChanged(top, left, bottom, right, roles, now) =>
        if row < top || bottom < row || column < left || right < column then after == before
        else if roles == [] then Coherent(after, now, row, column)
        else forall role | role in roles && role in now.names ::
          now.names[role] in after && after[now.names[role]] == Data(now, row, column, role)
    ensures ch.DataChanged? && ch.roles != [] ==>
      forall key | forall role | role in ch.roles :: (if role in ch.now.names then ch.now.names[role] else "") != key ::
        (key in after <==> key in before) && (key in before ==> after[key] == before[key])
  {
    NothingWritten(before, after, ch.now, row, column, Touched(AsWritten, ch, row, column));
  }

  lemma NothingWritten(before: Props, after: Props, t: Table, row: nat, column: nat, roles: set<int>)
    requires Wrote(before, after, t, row, column, roles)
    ensures roles == {} ==> after == before
  {
    if roles == {} {
      assert forall key :: (key in after <==> key in before) && (key in before ==> after[key] == before[key]);
    }
  }

  // A signal that makes a mapper rewrite every role brings it up to date,
  // whatever state it was in.
  lemma FullUpdateRestores(w: Wiring, before: Props, after: Props, ch: Change, row: nat, column: nat)
    requires Handles(w, before, after, ch, row, column)
    requires Touched(w, ch, row, column) == ch.now.names.Keys
    ensures Coherent(after, ch.now, row, column)
  {
  }

  // Every signal but columnsRemoved keeps a mapper coherent, and columnsRemoved
  // does too under the intended connections.
  lemma SignalKeepsCoherence(w: Wiring, was: Table, before: Props, after: Props, ch: Change, row: nat, column: nat)
    requires Truthful(was, ch) && Coherent(before, was, row, column)
    requires Handles(w, before, after, ch, row, column)
    requires !ch.ColumnsRemoved? || w.Intended?
    ensures Coherent(after, ch.now, row, column)
  {
    var now, touched := ch.now, Touched(w, ch, row, column);
    forall role | role in now.names
      ensures now.names[role] in after && after[now.names[role]] == Data(now, row, column, role)
    {
      if role !in touched {
        Untouched(before, after, now, row, column, touched, role);
        UntouchedIsUnchanged(w, was, ch, row, column, role);
      }
    }
  }

  // What a mapper does not rewrite has not changed.
  lemma UntouchedIsUnchanged(w: Wiring, was: Table, ch: Change, row: nat, column: nat, role: int)
    requires Truthful(was, ch) && (!ch.ColumnsRemoved? || w.Intended?)
    requires role in ch.now.names && role !in Touched(w, ch, row, column)
    ensures role in was.names && ch.now.names[role] == was.names[role]
    ensures Data(ch.now, row, column, role) == Data(was, row, column, role)
  {
    match ch
    case DataChanged(_, _, _, _, _, _) => assert !Covers(ch, row, column) || !Mentions(ch, role);
    case RowsInserted(_, _, now) => assert SameCell(now, row, column, was, row, column);
    case RowsRemoved(first, last, now) => assert SameCell(now, row, column, was, Before(row, first, last), column);
    case ColumnsInserted(_, _, now) => assert SameCell(now, row, column, was, row, column);
    case ColumnsRemoved(first, last, now) => assert SameCell(now, row, column, was, row, Before(column, first, last));
    case _ =>
  }

  lemma Untouched(before: Props, after: Props, t: Table, row: nat, column: nat, roles: set<int>, role: int)
    requires NamesOk(t) && Wrote(before, after, t, row, column, roles)
    requires role in t.names && role !in roles && t.names[role] in before
    ensures t.names[role] in after && after[t.names[role]] == before[t.names[role]]
  {
    forall r | r in roles ensures NameOf(t, r) != t.names[role] {}
  }

  // Removing the columns leaves the mapper's cell as it was: its column lies before
  // them, or the cell reads as the one that takes its place.
  ghost predicate CellStays(was: Table, first: nat, last: nat, row: nat, column: nat)
    requires first <= last
  {
    column < first ||
    forall role | role in was.names ::
      Data(was, row, column, role) == Data(was, row, column + (last - first + 1), role)
  }

  // As written, removing columns leaves a mapper coherent exactly then.
  lemma ColumnRemovalExactly(
      was: Table, before: Props, after: Props, first: nat, last: nat, now: Table, row: nat, column: nat)
    requires Truthful(was, ColumnsRemoved(first, last, now)) && Coherent(before, was, row, column)
    requires Handles(AsWritten, before, after, ColumnsRemoved(first, last, now), row, column)
    ensures Coherent(after, now, row, column) <==> CellStays(was, first, last, row, column)
  {
    forall role | role in now.names
      ensures now.names[role] in after && after[now.names[role]] == Data(was, row, column, role)
    {
      Untouched(before, after, now, row, column, {}, role);
    }
    assert SameCell(now, row, column, was, row, Before(column, first, last));
  }

  // The change is no column removal, or one that leaves the mapper's cell as it was.
  ghost predicate Harmless(was: Table, ch: Change, row: nat, column: nat) {
    ch.ColumnsRemoved? ==> ch.first <= ch.last && CellStays(was, ch.first, ch.last, row, column)
  }

  // One signal keeps a coherent mapper so exactly if connected as intended or harmless.
  lemma SignalExactly(w: Wiring, was: Table, before: Props, after: Props, ch: Change, row: nat, column: nat)
    requires Truthful(was, ch) && Coherent(before, was, row, column)
    requires Handles(w, before, after, ch, row, column)
    ensures Coherent(after, ch.now, row, column) <==> w.Intended? || Harmless(was, ch, row, column)
  {
    if ch.ColumnsRemoved? && w.AsWritten? {
      ColumnRemovalExactly(was, before, after, ch.first, ch.last, ch.now, row, column);
    } else {
      SignalKeepsCoherence(w, was, before, after, ch, row, column);
    }
  }

  // A two-column table loses its first column and the mapper of the first keeps
  // showing it; a reset afterwards mends it.
  lemma StaleAfterColumnRemoval() returns (was: Table, now: Table, before: Props)
    ensures Truthful(was, ColumnsRemoved(0, 0, now)) && Coherent(before, was, 0, 0)
    ensures Handles(AsWritten, before, before, ColumnsRemoved(0, 0, now), 0, 0)
    ensures !Coherent(before, now, 0, 0)
    ensures forall after | Handles(AsWritten, before, after, Reset(now), 0, 0) :: Coherent(after, now, 0, 0)
  {
    was := Table(1, 2, map[1 := "a"], map[(0, 0, 1) := Text("old"), (0, 1, 1) := Text("new")]);
    now := Table(1, 1, map[1 := "a"], map[(0, 0, 1) := Text("new")]);
    before := map["a" := Text("old")];
    assert Data(now, 0, 0, 1) == Text("new") && now.names[1] == "a";
    forall r: nat, c: nat ensures SameCell(now, r, c, was, r, Before(c, 0, 0)) {}
  }

  // ------------------------------------------------------------------- whole runs

  // states[i] is the mapper before changes[i], the table starting as `start`.
  ghost predicate IsRun(w: Wiring, start: Table, changes: seq<Change>, states: seq<Props>, row: nat, column: nat) {
    |states| == |changes| + 1 &&
    (forall i | 0 <= i < |changes| :: Truthful(TableAfter(start, changes[..i]), changes[i])) &&
    (forall i | 0 <= i < |changes| :: Handles(w, states[i], states[i + 1], changes[i], row, column))
  }

  function TableAfter(start: Table, changes: seq<Change>): Table {
    if changes == [] then start else changes[|changes| - 1].now
  }

  // The mapper agrees with the model at every point of the run.
  ghost predicate CoherentThroughout(start: Table, changes: seq<Change>, states: seq<Props>, row: nat, column: nat)
    requires |states| == |changes| + 1
  {
    forall i | 0 <= i <= |changes| :: Coherent(states[i], TableAfter(start, changes[..i]), row, column)
  }

  // Every column removal of the run is harmless at its moment.
  ghost predicate AllHarmless(start: Table, changes: seq<Change>, row: nat, column: nat) {
    forall i | 0 <= i < |changes| :: Harmless(TableAfter(start, changes[..i]), changes[i], row, column)
  }

  lemma ThroughoutNext(start: Table, changes: seq<Change>, states: seq<Props>, row: nat, column: nat)
    requires changes != [] && |states| == |changes| + 1
    ensures var n := |changes| - 1;
      CoherentThroughout(start, changes, states, row, column) <==>
        CoherentThroughout(start, changes[..n], states[..n + 1], row, column) &&
        Coherent(states[n + 1], TableAfter(start, changes), row, column)
  {
    var n := |changes| - 1;
    assert changes[..n + 1] == changes;
    assert forall i | 0 <= i <= n :: changes[..n][..i] == changes[..i] && states[..n + 1][i] == states[i];
  }

  lemma HarmlessNext(start: Table, changes: seq<Change>, row: nat, column: nat)
    requires changes != []
    ensures var n := |changes| - 1;
      AllHarmless(start, changes, row, column) <==>
        AllHarmless(start, changes[..n], row, column) &&
        Harmless(TableAfter(start, changes[..n]), changes[n], row, column)
  {
    var n := |changes| - 1;
    assert forall i | 0 <= i < n :: changes[..n][..i] == changes[..i] && changes[..n][i] == changes[i];
  }

  lemma RunPrefix(w: Wiring, start: Table, changes: seq<Change>, states: seq<Props>, row: nat, column: nat)
    requires IsRun(w, start, changes, states, row, column) && changes != []
    ensures var n := |changes| - 1;
      IsRun(w, start, changes[..n], states[..n + 1], row, column) && states[..n + 1][0] == states[0] &&
      Truthful(TableAfter(start, changes[..n]), changes[n]) &&
      Handles(w, states[n], states[n + 1], changes[n], row, column)
  {
    var n := |changes| - 1;
    assert forall i | 0 <= i < n :: changes[..n][..i] == changes[..i];
  }

  lemma LastAgrees(start: Table, changes: seq<Change>, states: seq<Props>, row: nat, column: nat)
    requires |states| == |changes| + 1 && CoherentThroughout(start, changes, states, row, column)
    ensures Coherent(states[|changes|], TableAfter(start, changes), row, column)
  {
    assert changes[..|changes|] == changes;
  }

  // From construction, in every run: a mapper agrees with the model throughout
  // exactly if the signals are connected as intended, or every column removal is
  // harmless at its moment.
  lemma {:induction false} RunCoherentExactly(
      w: Wiring, start: Table, changes: seq<Change>, states: seq<Props>, row: nat, column: nat)
    requires IsRun(w, start, changes, states, row, column) && Coherent(states[0], start, row, column)
    ensures CoherentThroughout(start, changes, states, row, column)
            <==> w.Intended? || AllHarmless(start, changes, row, column)
  {
    if changes != [] {
      var n := |changes| - 1;
      RunPrefix(w, start, changes, states, row, column);
      RunCoherentExactly(w, start, changes[..n], states[..n + 1], row, column);
      ThroughoutNext(start, changes, states, row, column);
      HarmlessNext(start, changes, row, column);
      var was := TableAfter(start, changes[..n]);
      if CoherentThroughout(start, changes[..n], states[..n + 1], row, column) {
        LastAgrees(start, changes[..n], states[..n + 1], row, column);
        SignalExactly(w, was, states[n], states[n + 1], changes[n], row, column);
      }
    }
  }
}
