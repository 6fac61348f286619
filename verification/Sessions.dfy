/** The remote-session annotation of a device: a list of console sessions kept as one encoded string,
    and the three updaters that rewrite it. */
module Sessions {
  import opened Common

  /** One entry of the annotation. `supersedes` is empty unless the entry was created by a takeover. */
  datatype Session = Session(id: string, app: string, kind: string, supersedes: string)

  /** The annotation's value: missing or empty, text that does not decode, or an encoded list.
      Encoding is taken to be one-to-one, so two encoded values are equal exactly when their lists are. */
  datatype Annotation = Empty | Opaque(text: string) | Encoded(list: seq<Session>)

  /** The three updater closures, with the arguments they capture. */
  datatype Updater =
    | Add(id: string, app: string, kind: string)
    | Replace(id: string, app: string, kind: string)
    | Remove(id: string)

  datatype Update = Updated(value: Annotation) | Duplicate | Undecodable

  function Decode(a: Annotation): Option<seq<Session>> {
    match a
    case Empty => Some([])
    case Opaque(_) => None
    case Encoded(list) => Some(list)
  }

  /** The sessions the annotation advertises; text that does not decode advertises none. */
  function Listed(a: Annotation): seq<Session> {
    match a
    case Encoded(list) => list
    case _ => []
  }

  predicate InSlot(s: Session, app: string, kind: string) {
    s.app == app && s.kind == kind
  }

  function OffSlot(app: string, kind: string): Session -> bool {
    (s: Session) => !InSlot(s, app, kind)
  }

  function NotId(id: string): Session -> bool {
    (s: Session) => s.id != id
  }

  predicate SlotTaken(list: seq<Session>, app: string, kind: string) {
    exists s :: s in list && InSlot(s, app, kind)
  }

  predicate IdListed(list: seq<Session>, id: string) {
    exists s :: s in list && s.id == id
  }

  /** The id of the last entry for (app, kind), or "" when there is none. */
  function OccupantId(list: seq<Session>, app: string, kind: string): string {
    if list == [] then ""
    else if InSlot(list[|list| - 1], app, kind) then list[|list| - 1].id
    else OccupantId(list[..|list| - 1], app, kind)
  }

  /** What an updater makes of the existing value. */
  function Apply(u: Updater, existing: Annotation): Update {
    match u
    case Add(id, app, kind) =>
      (match Decode(existing)
       case None => Undecodable
       case Some(list) =>
         if SlotTaken(list, app, kind) then Duplicate
         else Updated(Encoded(list + [Session(id, app, kind, "")])))
    case Replace(id, app, kind) =>
      (match Decode(existing)
       case None => Undecodable
       case Some(list) =>
         Updated(Encoded(Filter(list, OffSlot(app, kind))
                         + [Session(id, app, kind, OccupantId(list, app, kind))])))
    case Remove(id) =>
      (match Decode(existing)
       case None => Undecodable
       case Some(list) =>
         var kept := Filter(list, NotId(id));
         if kept == list then Updated(existing)
         else if kept == [] then Updated(Empty)
         else Updated(Encoded(kept)))
  }

  /** What the caller's replaced-session variable holds after the updater ran on `existing`. */
  function Reported(u: Updater, existing: Annotation, previous: string): string {
    if u.Replace? && Decode(existing).Some?
    then OccupantId(Decode(existing).value, u.app, u.kind)
    else previous
  }

  // ---- The updaters as the source runs them --------------------------------------------------

  method AddAppSession(existing: Annotation, id: string, app: string, kind: string) returns (r: Update)
    ensures r == Apply(Add(id, app, kind), existing)
  {
    var sessions: seq<Session> := [];
    match existing {
      case Empty =>
      case Opaque(_) => return Undecodable;
      case Encoded(list) => sessions := list;
    }
    for i := 0 to |sessions|
      invariant !SlotTaken(sessions[..i], app, kind)
    {
      if InSlot(sessions[i], app, kind) {
        assert sessions[i] in sessions;
        return Duplicate;
      }
      assert sessions[..i + 1] == sessions[..i] + [sessions[i]];
    }
    assert sessions[..|sessions|] == sessions;
    r := Updated(Encoded(sessions + [Session(id, app, kind, "")]));
  }

  /** Compacts `a` towards its front, keeping the entries outside (app, kind). The kept part reuses the
      array being read, which is safe because the write index never passes the read index. */
  method EvictSlot(a: array<Session>, app: string, kind: string) returns (w: nat, evicted: string)
    modifies a
    ensures w <= a.Length
    ensures a[..w] == Filter(old(a[..]), OffSlot(app, kind))
    ensures evicted == OccupantId(old(a[..]), app, kind)
  {
    ghost var was := a[..];
    w, evicted := 0, "";
    for i := 0 to a.Length
      invariant w <= i
      invariant forall k :: i <= k < a.Length ==> a[k] == was[k]
      invariant a[..w] == Filter(was[..i], OffSlot(app, kind))
      invariant evicted == OccupantId(was[..i], app, kind)
    {
      var s := a[i];
      FilterNext(was, i, OffSlot(app, kind));
      assert was[..i + 1][..i] == was[..i];
      if InSlot(s, app, kind) {
        evicted := s.id;
        continue;
      }
      a[w] := s;
      w := w + 1;
      assert a[..w] == a[..w - 1] + [s];
    }
    assert was[..a.Length] == was;
  }

  method ReplaceAppSession(existing: Annotation, id: string, app: string, kind: string, previous: string)
    returns (r: Update, replaced: string)
    ensures r == Apply(Replace(id, app, kind), existing)
    ensures replaced == Reported(Replace(id, app, kind), existing, previous)
  {
    var sessions: seq<Session> := [];
    match existing {
      case Empty =>
      case Opaque(_) => return Undecodable, previous;
      case Encoded(list) => sessions := list;
    }
    var a := new Session[|sessions|](i requires 0 <= i < |sessions| => sessions[i]);
    assert a[..] == sessions;
    var w, evicted := EvictSlot(a, app, kind);
    replaced := evicted;
    r := Updated(Encoded(a[..w] + [Session(id, app, kind, evicted)]));
  }

  method EvictId(a: array<Session>, id: string) returns (w: nat, removed: bool)
    modifies a
    ensures w <= a.Length
    ensures a[..w] == Filter(old(a[..]), NotId(id))
    ensures removed <==> w < a.Length
  {
    ghost var was := a[..];
    w, removed := 0, false;
    for i := 0 to a.Length
      invariant w <= i
      invariant removed <==> w < i
      invariant forall k :: i <= k < a.Length ==> a[k] == was[k]
      invariant a[..w] == Filter(was[..i], NotId(id))
    {
      var s := a[i];
      FilterNext(was, i, NotId(id));
      if s.id != id {
        a[w] := s;
        w := w + 1;
        assert a[..w] == a[..w - 1] + [s];
      } else {
        removed := true;
      }
    }
    assert was[..a.Length] == was;
  }

  method RemoveAppSession(existing: Annotation, id: string) returns (r: Update)
    ensures r == Apply(Remove(id), existing)
  {
    if existing == Empty {
      assert Filter([], NotId(id)) == [];
      return Updated(existing);
    }
    if existing.Opaque? {
      return Undecodable;
    }
    var sessions := existing.list;
    var a := new Session[|sessions|](i requires 0 <= i < |sessions| => sessions[i]);
    assert a[..] == sessions;
    var w, removed := EvictId(a, id);
    if !removed {
      assert a[..w] == a[..];
      FilterFixedLength(sessions, NotId(id));
      return Updated(existing);
    }
    if w == 0 {
      return Updated(Empty);
    }
    r := Updated(Encoded(a[..w]));
  }

  // ---- What the updaters promise -------------------------------------------------------------

  /** Text that does not decode is refused by every updater and nothing else is. */
  lemma RefusesIffUndecodable(u: Updater, existing: Annotation)
    ensures Apply(u, existing).Undecodable? <==> existing.Opaque?
  {
  }

  /** A plain start is refused exactly when an entry has both its application and its kind of console; otherwise
      its entry is appended and nothing else changes. */
  lemma AddRefusesIff(existing: Annotation, id: string, app: string, kind: string)
    requires !existing.Opaque?
    ensures Apply(Add(id, app, kind), existing).Duplicate? <==>
      exists s :: s in Listed(existing) && s.app == app && s.kind == kind
    ensures !Apply(Add(id, app, kind), existing).Duplicate? ==>
      Apply(Add(id, app, kind), existing) == Updated(Encoded(Listed(existing) + [Session(id, app, kind, "")]))
  {
    if exists s :: s in Listed(existing) && s.app == app && s.kind == kind {
      var s :| s in Listed(existing) && s.app == app && s.kind == kind;
      assert InSlot(s, app, kind);
    }
  }

  /** The last entry for the application and kind has the id, or there is no such entry and the id is empty. */
  predicate IsOccupant(list: seq<Session>, app: string, kind: string, id: string) {
    (exists i :: 0 <= i < |list| && OccupiesAt(list, app, kind, id, i)) ||
    (id == "" && forall s :: s in list ==> s.app != app || s.kind != kind)
  }

  predicate OccupiesAt(list: seq<Session>, app: string, kind: string, id: string, i: nat)
    requires i < |list|
  {
    && list[i].app == app && list[i].kind == kind && list[i].id == id
    && forall j :: i < j < |list| ==> list[j].app != app || list[j].kind != kind
  }

  lemma {:induction false} OccupantIs(list: seq<Session>, app: string, kind: string)
    ensures IsOccupant(list, app, kind, OccupantId(list, app, kind))
  {
    if list != [] {
      var n := |list| - 1;
      var id := OccupantId(list, app, kind);
      if InSlot(list[n], app, kind) {
        assert OccupiesAt(list, app, kind, id, n);
      } else {
        OccupantIs(list[..n], app, kind);
        assert list == list[..n] + [list[n]];
        if i :| 0 <= i < n && OccupiesAt(list[..n], app, kind, id, i) {
          assert OccupiesAt(list, app, kind, id, i);
        }
      }
    }
  }

  lemma {:induction false} FilterInOrder<T>(list: seq<T>, keep: T -> bool)
    ensures Subsequence(Filter(list, keep), list)
  {
    if list != [] {
      FilterInOrder(list[1..], keep);
      if !keep(list[0]) {
        SubsequenceExtend(Filter(list, keep), list[1..], list[0]);
        assert [list[0]] + list[1..] == list;
      }
    }
  }

  /** A forced start is never refused: the entries of other applications and kinds stay in order, those of its own go,
      and its entry comes last and names the one it takes over from. */
  lemma ReplaceTakesOver(existing: Annotation, id: string, app: string, kind: string)
    requires !existing.Opaque?
    ensures var r := Apply(Replace(id, app, kind), existing);
      && r.Updated? && Listed(r.value) != []
      && var kept, last := Listed(r.value)[..|Listed(r.value)| - 1], Listed(r.value)[|Listed(r.value)| - 1];
         && Subsequence(kept, Listed(existing))
         && (forall s :: s in kept <==> s in Listed(existing) && (s.app != app || s.kind != kind))
         && last == Session(id, app, kind, last.supersedes) && IsOccupant(Listed(existing), app, kind, last.supersedes)
         && forall previous :: Reported(Replace(id, app, kind), existing, previous) == last.supersedes
  {
    var list := Listed(existing);
    var kept := Filter(list, OffSlot(app, kind));
    FilterMembers(list, OffSlot(app, kind));
    FilterInOrder(list, OffSlot(app, kind));
    OccupantIs(list, app, kind);
    var after := Listed(Apply(Replace(id, app, kind), existing).value);
    assert after[..|after| - 1] == kept;
  }

  /** A removal is never refused: the other entries stay in order, and the annotation is left as it is exactly when
      the id is not in it. */
  lemma RemoveTakesOut(existing: Annotation, id: string)
    requires !existing.Opaque?
    ensures var r := Apply(Remove(id), existing);
      && r.Updated? && Subsequence(Listed(r.value), Listed(existing))
      && (forall s :: s in Listed(r.value) <==> s in Listed(existing) && s.id != id)
      && (r.value == existing <==> forall s :: s in Listed(existing) ==> s.id != id)
      && (r.value != existing && Listed(r.value) == [] ==> r.value == Empty)
  {
    var list := Listed(existing);
    var kept := Filter(list, NotId(id));
    FilterMembers(list, NotId(id));
    FilterInOrder(list, NotId(id));
    if forall s :: s in list ==> s.id != id {
      NothingFiltered(list, id);
    }
  }

  lemma {:induction false} NothingFiltered(list: seq<Session>, id: string)
    requires forall s :: s in list ==> s.id != id
    ensures Filter(list, NotId(id)) == list
  {
    if list != [] {
      assert list[0] in list && forall s :: s in list[1..] ==> s in list;
      NothingFiltered(list[1..], id);
      assert [list[0]] + list[1..] == list;
    }
  }

  // ---- What the updaters keep ----------------------------------------------------------------

  predicate UniqueSlots(list: seq<Session>) {
    forall i, j :: 0 <= i < j < |list| ==> !InSlot(list[j], list[i].app, list[i].kind)
  }

  predicate UniqueIds(list: seq<Session>) {
    forall i, j :: 0 <= i < j < |list| ==> list[i].id != list[j].id
  }

  /** At most one entry per (app, kind), and no id twice. */
  predicate Unique(list: seq<Session>) {
    UniqueSlots(list) && UniqueIds(list)
  }

  lemma {:induction false} FilterUnique(list: seq<Session>, keep: Session -> bool)
    requires Unique(list)
    ensures Unique(Filter(list, keep))
  {
    if list != [] {
      var rest := Filter(list[1..], keep);
      FilterUnique(list[1..], keep);
      FilterMembers(list[1..], keep);
      forall s | s in rest
        ensures s.id != list[0].id && !InSlot(s, list[0].app, list[0].kind)
      {
        assert s in list[1..];
      }
    }
  }

  lemma UniqueAppend(list: seq<Session>, s: Session)
    requires Unique(list) && !SlotTaken(list, s.app, s.kind) && !IdListed(list, s.id)
    ensures Unique(list + [s])
  {
    forall i | 0 <= i < |list|
      ensures list[i].id != s.id && !InSlot(s, list[i].app, list[i].kind)
    {
      assert list[i] in list;
    }
  }

  /** In a list with one entry per slot, the occupant's id names the only entry of that slot. */
  lemma {:induction false} OccupantIsTheEntry(list: seq<Session>, s: Session)
    requires Unique(list) && s in list
    ensures OccupantId(list, s.app, s.kind) == s.id
  {
    var n := |list| - 1;
    if list[n] != s {
      assert list == list[..n] + [list[n]];
      assert s in list[..n];
      OccupantIsTheEntry(list[..n], s);
    }
  }

  lemma {:induction false} NoOccupant(list: seq<Session>, app: string, kind: string)
    requires !SlotTaken(list, app, kind)
    ensures OccupantId(list, app, kind) == ""
  {
    if list != [] {
      assert list[|list| - 1] in list;
      assert forall s :: s in list[..|list| - 1] ==> s in list;
      NoOccupant(list[..|list| - 1], app, kind);
    }
  }

  /** Whatever an updater does to a list without repeats, the result has no repeats, provided an id it
      adds is not listed yet. Nothing else in the list is rewritten: every entry of the result is either
      an entry that was there or the one the updater creates. */
  lemma UpdateKeepsUnique(u: Updater, before: Annotation)
    requires Unique(Listed(before))
    requires u.Remove? || !IdListed(Listed(before), u.id)
    requires Apply(u, before).Updated?
    ensures Unique(Listed(Apply(u, before).value))
    ensures forall s :: s in Listed(Apply(u, before).value) ==>
      s in Listed(before) || (!u.Remove? && s.id == u.id && s.app == u.app && s.kind == u.kind)
  {
    var list := Listed(before);
    match u
    case Add(id, app, kind) =>
      UniqueAppend(list, Session(id, app, kind, ""));
    case Replace(id, app, kind) =>
      FilterUnique(list, OffSlot(app, kind));
      FilterMembers(list, OffSlot(app, kind));
      var kept := Filter(list, OffSlot(app, kind));
      UniqueAppend(kept, Session(id, app, kind, OccupantId(list, app, kind)));
    case Remove(id) =>
      FilterUnique(list, NotId(id));
      FilterMembers(list, NotId(id));
  }

  /** An entry disappears only because the updater removes its id, or because a replacement takes its
      (app, kind); then the new last entry names it as the one it replaces. */
  lemma UpdateDropsOnly(u: Updater, before: Annotation, s: Session)
    requires Unique(Listed(before)) && s in Listed(before)
    requires Apply(u, before).Updated?
    requires s !in Listed(Apply(u, before).value)
    ensures u.Remove? ==> u.id == s.id
    ensures !u.Remove? ==>
      && u.Replace? && InSlot(s, u.app, u.kind)
      && Session(u.id, u.app, u.kind, s.id) in Listed(Apply(u, before).value)
      && Reported(u, before, "") == s.id
  {
    match u
    case Add(_, _, _) =>
    case Replace(_, app, kind) =>
      FilterMembers(Listed(before), OffSlot(app, kind));
      OccupantIsTheEntry(Listed(before), s);
    case Remove(id) =>
      FilterMembers(Listed(before), NotId(id));
  }

  /** Removing an id leaves no entry with it and every other entry in place. */
  lemma RemoveRemoves(id: string, before: Annotation)
    requires Apply(Remove(id), before).Updated?
    ensures !IdListed(Listed(Apply(Remove(id), before).value), id)
    ensures forall s :: s in Listed(before) && s.id != id ==> s in Listed(Apply(Remove(id), before).value)
  {
    var kept := Filter(Listed(before), NotId(id));
    FilterMembers(Listed(before), NotId(id));
    assert Listed(Apply(Remove(id), before).value) == kept;
  }

  /** An updater that adds a fresh id really changes the value and lists that id exactly. */
  lemma AddingChanges(u: Updater, before: Annotation)
    requires !u.Remove? && !IdListed(Listed(before), u.id)
    requires Apply(u, before).Updated?
    ensures Apply(u, before).value != before
    ensures IdListed(Listed(Apply(u, before).value), u.id)
  {
    var after := Listed(Apply(u, before).value);
    assert after[|after| - 1].id == u.id;
  }
}
