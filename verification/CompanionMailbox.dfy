/** A phone that polls its mailbox: pages, the replay window, the workspace snapshot, the
    durable state and the relay's acknowledgement, with a crash possible anywhere. */
module CompanionMailbox {
  import opened Wrappers
  import opened Unicode

  const MaximumPage: nat := 256
  const ReplayCapacity: nat := 65_536
  const MaximumOutbox: nat := 32

  // ---- The snapshot -------------------------------------------------------

  /** Identifiers are ordered by their bytes. */
  type Id = seq<Byte>

  datatype Shot = Shot(id: Id, sortIndex: int, archived: bool, version: Option<nat>)

  type Snapshot = seq<Shot>

  datatype Event =
    | WholeSnapshot(snapshot: Snapshot)
    | ShotUpsert(shot: Shot)
    | ShotArchive(id: Id)
    | ShotRemove(id: Id)
    | VersionAccepted(id: Id, version: nat)
    | OtherEvent

  predicate UniqueShots(s: Snapshot) {
    forall i, j :: 0 <= i < j < |s| ==> s[i].id != s[j].id
  }

  /** The index of the first Shot with this identifier, or the length. */
  function Find(s: Snapshot, id: Id): (i: nat)
    ensures i <= |s|
    ensures i < |s| ==> s[i].id == id
    ensures forall j :: 0 <= j < i ==> s[j].id != id
  {
    if s == [] then 0 else if s[0].id == id then 0 else 1 + Find(s[1..], id)
  }

  predicate ShotBefore(a: Shot, b: Shot) {
    a.sortIndex < b.sortIndex || (a.sortIndex == b.sortIndex && Before(a.id, b.id))
  }

  function InsertShot(shot: Shot, s: Snapshot): Snapshot {
    if s == [] || ShotBefore(shot, s[0]) then [shot] + s else [s[0]] + InsertShot(shot, s[1..])
  }

  function SortShots(s: Snapshot): Snapshot {
    if s == [] then [] else InsertShot(s[|s| - 1], SortShots(s[..|s| - 1]))
  }

  /** `upsert_shot`: in place when the Shot is known, else pushed and the whole sorted. */
  function Upserted(s: Snapshot, shot: Shot): Snapshot {
    var i := Find(s, shot.id);
    if i < |s| then s[i := shot] else SortShots(s + [shot])
  }

  function Removed(s: Snapshot, id: Id): Snapshot {
    if s == [] then [] else (if s[0].id != id then [s[0]] else []) + Removed(s[1..], id)
  }

  function Changed(s: Snapshot, event: Event): Snapshot {
    match event
    case WholeSnapshot(snapshot) => snapshot
    case ShotUpsert(shot) => Upserted(s, shot)
    case ShotArchive(id) => (var i := Find(s, id); if i < |s| then s[i := s[i].(archived := true)] else s)
    case ShotRemove(id) => Removed(s, id)
    case VersionAccepted(id, version) =>
      (var i := Find(s, id); if i < |s| then s[i := s[i].(version := Some(version))] else s)
    case OtherEvent => s
  }

  /** `apply_event`, which ends with the validation of the new snapshot. */
  function Applied(s: Snapshot, event: Event): Option<Snapshot> {
    if UniqueShots(Changed(s, event)) then Some(Changed(s, event)) else None
  }

  lemma {:induction false} InsertShotMembers(shot: Shot, s: Snapshot)
    requires UniqueShots(s) && forall i :: 0 <= i < |s| ==> s[i].id != shot.id
    ensures UniqueShots(InsertShot(shot, s))
    ensures forall x :: x in InsertShot(shot, s) <==> x == shot || x in s
  {
    if s != [] && !ShotBefore(shot, s[0]) {
      InsertShotMembers(shot, s[1..]);
      var rest := InsertShot(shot, s[1..]);
      assert s == [s[0]] + s[1..];
      forall i | 0 <= i < |rest| ensures rest[i].id != s[0].id {
        assert rest[i] in rest;
      }
    }
  }

  lemma {:induction false} SortShotsMembers(s: Snapshot)
    requires UniqueShots(s)
    ensures UniqueShots(SortShots(s))
    ensures forall x :: x in SortShots(s) <==> x in s
  {
    if s != [] {
      var front := s[..|s| - 1];
      SortShotsMembers(front);
      assert s == front + [s[|s| - 1]];
      forall i | 0 <= i < |SortShots(front)| ensures SortShots(front)[i].id != s[|s| - 1].id {
        assert SortShots(front)[i] in SortShots(front);
      }
      InsertShotMembers(s[|s| - 1], SortShots(front));
    }
  }

  /** In the order of `upsert_shot`: sort index, then identifier. */
  predicate SortedShots(s: Snapshot) {
    forall i, j :: 0 <= i < j < |s| ==> ShotBefore(s[i], s[j])
  }

  lemma {:induction false} InsertShotSorts(shot: Shot, s: Snapshot)
    requires SortedShots(s) && UniqueShots(s) && forall i :: 0 <= i < |s| ==> s[i].id != shot.id
    ensures SortedShots(InsertShot(shot, s))
  {
    if s != [] {
      BeforeIsTotal(shot.id, s[0].id);
      if ShotBefore(shot, s[0]) {
        forall j | 0 < j < |s| ensures ShotBefore(shot, s[j]) {
          if shot.sortIndex == s[j].sortIndex {
            BeforeIsTransitive(shot.id, s[0].id, s[j].id);
          }
        }
      } else {
        var rest := InsertShot(shot, s[1..]);
        InsertShotSorts(shot, s[1..]);
        InsertShotMembers(shot, s[1..]);
        forall j | 0 <= j < |rest| ensures ShotBefore(s[0], rest[j]) {
          assert rest[j] in rest;
        }
      }
    }
  }

  /** A Shot that was not known is put in its place, whatever the order was before. */
  lemma {:induction false} PushedShotsAreSorted(s: Snapshot)
    requires UniqueShots(s)
    ensures SortedShots(SortShots(s))
  {
    if s != [] {
      var front := s[..|s| - 1];
      PushedShotsAreSorted(front);
      SortShotsMembers(front);
      forall i | 0 <= i < |SortShots(front)| ensures SortShots(front)[i].id != s[|s| - 1].id {
        assert SortShots(front)[i] in SortShots(front);
      }
      InsertShotSorts(s[|s| - 1], SortShots(front));
    }
  }

  /** An upsert changes the one Shot it names and keeps every other as it was. */
  lemma UpsertChangesOne(s: Snapshot, shot: Shot)
    requires UniqueShots(s)
    ensures UniqueShots(Upserted(s, shot))
    ensures forall x :: x in Upserted(s, shot) <==> x == shot || (x in s && x.id != shot.id)
  {
    var i := Find(s, shot.id);
    if i == |s| {
      SortShotsMembers(s + [shot]);
    } else {
      ReplacedMembers(s, i, shot);
    }
  }

  lemma {:induction false} RemovedMembers(s: Snapshot, id: Id)
    requires UniqueShots(s)
    ensures UniqueShots(Removed(s, id))
    ensures forall x :: x in Removed(s, id) <==> x in s && x.id != id
  {
    if s != [] {
      var rest := Removed(s[1..], id);
      RemovedMembers(s[1..], id);
      assert s == [s[0]] + s[1..];
      forall i | 0 <= i < |rest| ensures rest[i].id != s[0].id {
        assert rest[i] in rest;
      }
    }
  }

  lemma ReplacedMembers(s: Snapshot, i: nat, shot: Shot)
    requires UniqueShots(s) && i < |s| && shot.id == s[i].id
    ensures UniqueShots(s[i := shot])
    ensures forall x :: x in s[i := shot] <==> x == shot || (x in s && x.id != shot.id)
  {
    var after := s[i := shot];
    forall x | x in s && x.id != shot.id ensures x in after {
      var j :| 0 <= j < |s| && s[j] == x;
      assert after[j] == x;
    }
    assert after[i] == shot;
  }

  /** The identifier of the one Shot that an event may touch. */
  function Touched(event: Event): Option<Id> {
    match event
    case ShotUpsert(shot) => Some(shot.id)
    case ShotArchive(id) => Some(id)
    case ShotRemove(id) => Some(id)
    case VersionAccepted(id, _) => Some(id)
    case _ => None
  }

  /** What an event leaves of the Shot it names. */
  function Meant(event: Event, before: Option<Shot>): Option<Shot>
    requires Touched(event).Some?
  {
    match event
    case ShotUpsert(shot) => Some(shot)
    case ShotArchive(_) => if before.Some? then Some(before.value.(archived := true)) else None
    case ShotRemove(_) => None
    case VersionAccepted(_, version) => if before.Some? then Some(before.value.(version := Some(version))) else None
  }

  function ShotOf(s: Snapshot, id: Id): Option<Shot> {
    if Find(s, id) < |s| then Some(s[Find(s, id)]) else None
  }

  /** An event does to the Shot it names what it means, and nothing to any other; the
      validation at the end refuses only a whole snapshot with a duplicate. */
  lemma EventChangesExactly(s: Snapshot, event: Event)
    requires UniqueShots(s)
    ensures Applied(s, event).Some? <==> (event.WholeSnapshot? ==> UniqueShots(event.snapshot))
    ensures Touched(event).Some? ==>
      var id := Touched(event).value;
      forall x :: x in Changed(s, event) <==> (x in s && x.id != id) || Some(x) == Meant(event, ShotOf(s, id))
    ensures event.OtherEvent? ==> Applied(s, event) == Some(s)
    ensures event.WholeSnapshot? && UniqueShots(event.snapshot) ==> Applied(s, event) == Some(event.snapshot)
  {
    match event
    case WholeSnapshot(_) =>
    case OtherEvent =>
    case ShotUpsert(shot) => UpsertChangesOne(s, shot);
    case ShotRemove(id) => RemovedMembers(s, id);
    case ShotArchive(id) => ChangedInPlace(s, id, event);
    case VersionAccepted(id, _) => ChangedInPlace(s, id, event);
  }

  lemma ChangedInPlace(s: Snapshot, id: Id, event: Event)
    requires UniqueShots(s) && (event == ShotArchive(id) || (event.VersionAccepted? && event.id == id))
    ensures UniqueShots(Changed(s, event))
    ensures forall x :: x in Changed(s, event) <==> (x in s && x.id != id) || Some(x) == Meant(event, ShotOf(s, id))
  {
    var i := Find(s, id);
    if i < |s| {
      ReplacedMembers(s, i, Meant(event, Some(s[i])).value);
    }
  }

  // ---- The replay window --------------------------------------------------

  datatype Seen = Seen(sequence: nat, id: string)

  /** The sequences remembered, in ascending order. */
  datatype Window = Window(floor: nat, seen: seq<Seen>)

  function InsertSeen(x: Seen, seen: seq<Seen>): seq<Seen> {
    if seen == [] || x.sequence < seen[0].sequence then [x] + seen else [seen[0]] + InsertSeen(x, seen[1..])
  }

  function Trimmed(w: Window): Window
    decreases |w.seen|
  {
    if |w.seen| > ReplayCapacity
    then Trimmed(Window(if w.seen[0].sequence > w.floor then w.seen[0].sequence else w.floor, w.seen[1..]))
    else w
  }

  /** `observe`, a duplicate being refused like any other replay. */
  function Observed(w: Window, x: Seen): Option<Window> {
    if x.sequence <= w.floor || (exists i :: 0 <= i < |w.seen| && (w.seen[i].sequence == x.sequence || w.seen[i].id == x.id))
    then None
    else Some(Trimmed(Window(w.floor, InsertSeen(x, w.seen))))
  }

  /** The window after some observations, if none was refused. */
  function ObservedAll(w: Window, xs: seq<Seen>): Option<Window>
    decreases |xs|
  {
    if xs == [] then Some(w)
    else match Observed(w, xs[0])
      case None => None
      case Some(next) => ObservedAll(next, xs[1..])
  }

  /** The observation is in the window, or everything up to it was dropped from it. */
  predicate Remembers(w: Window, x: Seen) {
    x in w.seen || x.sequence <= w.floor
  }

  lemma {:induction false} InsertRemembers(x: Seen, seen: seq<Seen>)
    ensures forall y :: y in InsertSeen(x, seen) <==> y == x || y in seen
    ensures |InsertSeen(x, seen)| == |seen| + 1
  {
    if seen != [] && seen[0].sequence <= x.sequence {
      InsertRemembers(x, seen[1..]);
      assert seen == [seen[0]] + seen[1..];
    }
  }

  lemma {:induction false} TrimRemembers(w: Window, x: Seen)
    requires Remembers(w, x)
    ensures Remembers(Trimmed(w), x) && w.floor <= Trimmed(w).floor
    ensures |w.seen| <= 65_536 ==> Trimmed(w) == w
    decreases |w.seen|
  {
    if |w.seen| > ReplayCapacity {
      assert w.seen == [w.seen[0]] + w.seen[1..];
      TrimRemembers(Window(if w.seen[0].sequence > w.floor then w.seen[0].sequence else w.floor, w.seen[1..]), x);
    }
  }

  lemma {:induction false} ObservedRemembers(w: Window, x: Seen, xs: seq<Seen>)
    requires Remembers(w, x) && ObservedAll(w, xs).Some?
    ensures Remembers(ObservedAll(w, xs).value, x)
    decreases |xs|
  {
    if xs != [] {
      InsertRemembers(xs[0], w.seen);
      TrimRemembers(Window(w.floor, InsertSeen(xs[0], w.seen)), x);
      ObservedRemembers(Observed(w, xs[0]).value, x, xs[1..]);
    }
  }

  /** A replay is refused, however much was observed in between: the same sequence always,
      the same identifier while the window still reaches back to it. */
  lemma ReplayIsRefused(w: Window, x: Seen, between: seq<Seen>, again: Seen)
    requires Observed(w, x).Some? && ObservedAll(Observed(w, x).value, between).Some?
    ensures var later := ObservedAll(Observed(w, x).value, between).value;
      again.sequence == x.sequence || (again.id == x.id && later.floor < x.sequence) ==> Observed(later, again).None?
  {
    InsertRemembers(x, w.seen);
    TrimRemembers(Window(w.floor, InsertSeen(x, w.seen)), x);
    ObservedRemembers(Observed(w, x).value, x, between);
  }

  /** What is new is taken and remembered with all that was, while there is room. */
  lemma NewIsTaken(w: Window, x: Seen)
    requires w.floor < x.sequence && forall y :: y in w.seen ==> y.sequence != x.sequence && y.id != x.id
    ensures Observed(w, x).Some?
    ensures |w.seen| < 65_536 ==>
      && Observed(w, x).value.floor == w.floor
      && forall y :: y in Observed(w, x).value.seen <==> y == x || y in w.seen
  {
    assert forall i :: 0 <= i < |w.seen| ==> w.seen[i] in w.seen;
    InsertRemembers(x, w.seen);
    TrimRemembers(Window(w.floor, InsertSeen(x, w.seen)), x);
  }

  // ---- The phone ----------------------------------------------------------

  /** An envelope of the relay's log: its cursor there, the sender's sequence and its
      identifier, and the event inside. */
  datatype Item = Item(cursor: nat, sequence: nat, id: string, event: Event)

  datatype Phone = Phone(cursor: nat, snapshot: Snapshot, replay: Window)

  function Received(p: Phone, item: Item): Option<Phone> {
    match Observed(p.replay, Seen(item.sequence, item.id))
    case None => None
    case Some(replay) =>
      match Applied(p.snapshot, item.event)
      case None => None
      case Some(snapshot) => Some(Phone(item.cursor, snapshot, replay))
  }

  /** The phone after these envelopes, each applied once and in order. */
  function Folded(p: Phone, items: seq<Item>): Option<Phone> {
    if items == [] then Some(p)
    else match Folded(p, items[..|items| - 1])
      case None => None
      case Some(before) => Received(before, items[|items| - 1])
  }

  class PhoneState {
    var cursor: nat
    var snapshot: Snapshot
    var replay: Window

    function View(): Phone
      reads this
    {
      Phone(cursor, snapshot, replay)
    }

    constructor (p: Phone)
      ensures View() == p
    {
      cursor, snapshot, replay := p.cursor, p.snapshot, p.replay;
    }

    /** `apply_event`: on an error the snapshot in memory may have changed already. */
    method ApplyEvent(event: Event) returns (ok: bool)
      modifies this`snapshot
      ensures ok == Applied(old(snapshot), event).Some?
      ensures ok ==> Applied(old(snapshot), event) == Some(snapshot)
    {
      match event {
        case WholeSnapshot(whole) => snapshot := whole;
        case ShotUpsert(shot) =>
          var i := Find(snapshot, shot.id);
          if i < |snapshot| {
            snapshot := snapshot[i := shot];
          } else {
            snapshot := SortShots(snapshot + [shot]);
          }
        case ShotArchive(id) =>
          var i := Find(snapshot, id);
          if i < |snapshot| {
            snapshot := snapshot[i := snapshot[i].(archived := true)];
          }
        case ShotRemove(id) => snapshot := Removed(snapshot, id);
        case VersionAccepted(id, version) =>
          var i := Find(snapshot, id);
          if i < |snapshot| {
            snapshot := snapshot[i := snapshot[i].(version := Some(version))];
          }
        case OtherEvent =>
      }
      ok := UniqueShots(snapshot);
    }

    /** The loop of `reconcile_phone_once` over one page; an error ends the process. */
    method ReceivePage(page: seq<Item>) returns (ok: bool)
      modifies this
      ensures ok == Folded(old(View()), page).Some?
      ensures ok ==> Folded(old(View()), page) == Some(View())
    {
      for i := 0 to |page|
        invariant Folded(old(View()), page[..i]) == Some(View())
      {
        ghost var before := View();
        assert page[..i + 1][..i] == page[..i];
        var window := Observed(replay, Seen(page[i].sequence, page[i].id));
        if window.None? {
          FoldFails(old(View()), page, i + 1);
          return false;
        }
        replay := window.value;
        var applied := ApplyEvent(page[i].event);
        if !applied {
          FoldFails(old(View()), page, i + 1);
          return false;
        }
        cursor := page[i].cursor;
      }
      assert page[..|page|] == page;
      return true;
    }
  }

  lemma {:induction false} FoldFails(p: Phone, items: seq<Item>, i: nat)
    requires i <= |items| && Folded(p, items[..i]).None?
    ensures Folded(p, items).None?
    decreases |items| - i
  {
    if i < |items| {
      assert items[..i + 1][..i] == items[..i];
      FoldFails(p, items, i + 1);
    } else {
      assert items[..i] == items;
    }
  }

  // ---- Pages --------------------------------------------------------------

  datatype Page = Page(items: seq<Item>, next: nat, head: nat, hasMore: bool)

  /** What `validate_routing` accepts after this cursor. */
  predicate ValidPage(page: Page, after: nat) {
    && |page.items| <= MaximumPage && after <= page.next <= page.head
    && (forall i :: 0 <= i < |page.items| ==> after < page.items[i].cursor <= page.head)
    && (forall i, j :: 0 <= i < j < |page.items| ==> page.items[i].cursor < page.items[j].cursor)
    && page.next == (if page.items == [] then after else page.items[|page.items| - 1].cursor)
    && (page.hasMore <==> page.next < page.head)
  }

  method ValidateRouting(page: Page, after: nat) returns (ok: bool)
    ensures ok <==> ValidPage(page, after)
  {
    if |page.items| > MaximumPage || page.next < after || page.head < page.next {
      return false;
    }
    var previous := after;
    for i := 0 to |page.items|
      invariant previous == if i == 0 then after else page.items[i - 1].cursor
      invariant forall j :: 0 <= j < i ==> after < page.items[j].cursor <= page.head
      invariant forall j, k :: 0 <= j < k < i ==> page.items[j].cursor < page.items[k].cursor
    {
      if page.items[i].cursor <= previous || page.head < page.items[i].cursor {
        return false;
      }
      previous := page.items[i].cursor;
    }
    return page.next == (if page.items == [] then after else page.items[|page.items| - 1].cursor)
           && (page.hasMore <==> page.next < page.head);
  }

  // ---- The protocol -------------------------------------------------------

  /** `pruned`: the relay may have dropped envelopes up to this cursor. */
  datatype Relay = Relay(log: seq<Item>, pruned: nat, acked: nat)

  datatype Stage = Idle | Applying(rest: seq<Item>, count: nat) | Stored

  datatype Process = Process(phone: Phone, stage: Stage)

  /** `paired` is the durable state at pairing; `log` holds the envelopes since. */
  datatype State = State(paired: Phone, relay: Relay, durable: Phone, live: Option<Process>)

  datatype Step =
    | Post(item: Item)
    | Prune(cursor: nat)
    | Start
    | Poll(count: nat)
    | ApplyNext
    | Store
    | Acknowledge
    | Save
    | Crash

  /** The cursor and the sequence reached after n envelopes. */
  function CursorAt(paired: Phone, log: seq<Item>, n: nat): nat
    requires n <= |log|
  {
    if n == 0 then paired.cursor else log[n - 1].cursor
  }

  /** How many envelopes of the log are up to a cursor. */
  function Delivered(log: seq<Item>, cursor: nat): (n: nat)
    ensures n <= |log|
  {
    if log == [] || log[0].cursor > cursor then 0 else 1 + Delivered(log[1..], cursor)
  }

  /** The sender numbers envelopes upwards and never reuses an identifier. */
  ghost predicate HonestLog(paired: Phone, log: seq<Item>) {
    && (forall i :: 0 <= i < |log| ==>
          && paired.cursor < log[i].cursor && paired.replay.floor < log[i].sequence
          && forall k :: 0 <= k < |paired.replay.seen| ==>
               paired.replay.seen[k].sequence < log[i].sequence && paired.replay.seen[k].id != log[i].id)
    && (forall i, j :: 0 <= i < j < |log| ==>
          log[i].cursor < log[j].cursor && log[i].sequence < log[j].sequence && log[i].id != log[j].id)
  }

  ghost predicate Enabled(s: State, step: Step) {
    match step
    case Post(item) => HonestLog(s.paired, s.relay.log + [item])
    case Prune(cursor) => s.relay.pruned <= cursor <= s.relay.acked
    case Start => s.live.None?
    case Poll(count) =>
      && s.live.Some? && s.live.value.stage.Idle? && s.relay.pruned <= s.live.value.phone.cursor
      && count <= MaximumPage && Delivered(s.relay.log, s.live.value.phone.cursor) + count <= |s.relay.log|
    case ApplyNext => s.live.Some? && s.live.value.stage.Applying? && s.live.value.stage.rest != []
    case Store => s.live.Some? && s.live.value.stage.Applying? && s.live.value.stage.rest == []
    case Acknowledge => s.live.Some? && s.live.value.stage.Stored?
    case Save => s.live.Some? && s.live.value.stage.Idle?
    case Crash => true
  }

  /** The relay's answer to a poll: the next envelopes of its log. */
  function Served(log: seq<Item>, cursor: nat, count: nat): seq<Item>
    requires Delivered(log, cursor) + count <= |log|
  {
    log[Delivered(log, cursor)..Delivered(log, cursor) + count]
  }

  ghost function After(s: State, step: Step): State
    requires Enabled(s, step)
  {
    match step
    case Post(item) => s.(relay := s.relay.(log := s.relay.log + [item]))
    case Prune(cursor) => s.(relay := s.relay.(pruned := cursor))
    case Start => s.(live := Some(Process(s.durable, Idle)))
    case Poll(count) =>
      var phone := s.live.value.phone;
      s.(live := Some(Process(phone, Applying(Served(s.relay.log, phone.cursor, count), count))))
    case ApplyNext =>
      var stage := s.live.value.stage;
      (match Received(s.live.value.phone, stage.rest[0])
       case Some(phone) => s.(live := Some(Process(phone, stage.(rest := stage.rest[1..]))))
       case None => s.(live := None))
    case Store =>
      var phone := s.live.value.phone;
      if s.live.value.stage.count == 0 then s.(live := Some(Process(phone, Idle)))
      else s.(durable := phone, live := Some(Process(phone, Stored)))
    case Acknowledge =>
      var phone := s.live.value.phone;
      s.(relay := s.relay.(acked := phone.cursor), live := Some(Process(phone, Idle)))
    case Save => s.(durable := s.live.value.phone)
    case Crash => s.(live := None)
  }

  /** The phone is the paired one folded over the first n envelopes. */
  ghost predicate PhoneAt(s: State, n: nat, p: Phone) {
    && n <= |s.relay.log| && Folded(s.paired, s.relay.log[..n]) == Some(p)
    && p.cursor == CursorAt(s.paired, s.relay.log, n)
  }

  /** n envelopes are durable and m are applied in memory. */
  ghost predicate MailboxInvariant(s: State, n: nat, m: nat) {
    && HonestLog(s.paired, s.relay.log) && PhoneAt(s, n, s.durable)
    && s.relay.pruned <= s.relay.acked <= s.durable.cursor
    && (s.live.Some? ==>
          && n <= m && PhoneAt(s, m, s.live.value.phone)
          && (s.live.value.stage.Stored? ==> s.durable == s.live.value.phone)
          && (s.live.value.stage.Applying? ==>
                var rest := s.live.value.stage.rest;
                m + |rest| <= |s.relay.log| && rest == s.relay.log[m..m + |rest|]))
  }

  lemma DeliveredIs(paired: Phone, log: seq<Item>, n: nat)
    requires HonestLog(paired, log) && n <= |log|
    ensures Delivered(log, CursorAt(paired, log, n)) == n
  {
    DeliveredCounts(log, CursorAt(paired, log, n), n);
  }

  lemma {:induction false} DeliveredCounts(log: seq<Item>, cursor: nat, n: nat)
    requires n <= |log|
    requires forall i :: 0 <= i < n ==> log[i].cursor <= cursor
    requires n < |log| ==> log[n].cursor > cursor
    ensures Delivered(log, cursor) == n
  {
    if n > 0 {
      DeliveredCounts(log[1..], cursor, n - 1);
    }
  }

  /** One more envelope. */
  lemma FoldedNext(s: State, m: nat, p: Phone, next: Phone)
    requires PhoneAt(s, m, p) && m < |s.relay.log| && Received(p, s.relay.log[m]) == Some(next)
    ensures PhoneAt(s, m + 1, next)
  {
    assert s.relay.log[..m + 1][..m] == s.relay.log[..m];
  }

  lemma PhoneStays(s: State, item: Item, n: nat, p: Phone)
    requires PhoneAt(s, n, p)
    ensures PhoneAt(s.(relay := s.relay.(log := s.relay.log + [item])), n, p)
  {
    assert (s.relay.log + [item])[..n] == s.relay.log[..n];
  }

  lemma PostStep(s: State, item: Item, n: nat, m: nat)
    requires MailboxInvariant(s, n, m) && Enabled(s, Post(item))
    ensures MailboxInvariant(After(s, Post(item)), n, m)
  {
    PhoneStays(s, item, n, s.durable);
    if s.live.Some? {
      PhoneStays(s, item, m, s.live.value.phone);
      if s.live.value.stage.Applying? {
        var k := m + |s.live.value.stage.rest|;
        assert (s.relay.log + [item])[m..k] == s.relay.log[m..k];
      }
    }
  }

  /** How many envelopes are durable, and in memory, after a step. */
  function NextCounts(s: State, step: Step, n: nat, m: nat): (nat, nat) {
    if step.Start? then (n, n)
    else if step.ApplyNext? then (n, m + 1)
    else if step.Store? || step.Save? then (if s.live.Some? && s.live.value.stage.Applying? && s.live.value.stage.count == 0 then n else m, m)
    else (n, m)
  }

  lemma MailboxStep(s: State, step: Step, n: nat, m: nat)
    requires MailboxInvariant(s, n, m) && Enabled(s, step)
    ensures var (n', m') := NextCounts(s, step, n, m); MailboxInvariant(After(s, step), n', m')
    ensures s.relay.acked <= After(s, step).relay.acked
  {
    if step.Post? {
      PostStep(s, step.item, n, m);
    } else if step.Poll? {
      DeliveredIs(s.paired, s.relay.log, m);
    } else if step.ApplyNext? {
      ApplyStep(s, n, m);
    } else {
      QuietStep(s, step, n, m);
    }
  }

  lemma ApplyStep(s: State, n: nat, m: nat)
    requires MailboxInvariant(s, n, m) && Enabled(s, ApplyNext)
    ensures MailboxInvariant(After(s, ApplyNext), n, m + 1)
  {
    var rest := s.live.value.stage.rest;
    assert rest[0] == s.relay.log[m];
    if Received(s.live.value.phone, rest[0]).Some? {
      FoldedNext(s, m, s.live.value.phone, Received(s.live.value.phone, rest[0]).value);
      assert rest[1..] == s.relay.log[m + 1..m + 1 + |rest[1..]|];
    }
  }

  lemma QuietStep(s: State, step: Step, n: nat, m: nat)
    requires MailboxInvariant(s, n, m) && Enabled(s, step) && !step.Post? && !step.Poll? && !step.ApplyNext?
    ensures var (n', m') := NextCounts(s, step, n, m); MailboxInvariant(After(s, step), n', m')
    ensures s.relay.acked <= After(s, step).relay.acked
  {
  }

  ghost predicate Legal(s: State, steps: seq<Step>)
    decreases |steps|
  {
    steps != [] ==> Enabled(s, steps[0]) && Legal(After(s, steps[0]), steps[1..])
  }

  ghost function Run(s: State, steps: seq<Step>): State
    requires Legal(s, steps)
    decreases |steps|
  {
    if steps == [] then s else Run(After(s, steps[0]), steps[1..])
  }

  lemma {:induction false} MailboxRun(s: State, steps: seq<Step>, n: nat, m: nat) returns (n': nat, m': nat)
    requires MailboxInvariant(s, n, m) && Legal(s, steps)
    ensures MailboxInvariant(Run(s, steps), n', m') && Run(s, steps).paired == s.paired
    ensures s.relay.acked <= Run(s, steps).relay.acked
    decreases |steps|
  {
    n', m' := n, m;
    if steps != [] {
      MailboxStep(s, steps[0], n, m);
      var (a, b) := NextCounts(s, steps[0], n, m);
      n', m' := MailboxRun(After(s, steps[0]), steps[1..], a, b);
    }
  }

  /** Just paired: nothing in the log yet, and nothing acknowledged beyond the phone. */
  predicate JustPaired(s: State) {
    s.relay.log == [] && s.durable == s.paired && s.live.None? && s.relay.pruned <= s.relay.acked <= s.paired.cursor
  }

  /** At every point of every run, crashes included, the relay's acknowledged cursor is at
      most the durable one and never goes back, and the durable state is the paired state
      folded over the envelopes up to its cursor, each applied once and in order. */
  lemma DurableStateIsTheFold(start: State, steps: seq<Step>)
    requires JustPaired(start) && Legal(start, steps)
    ensures var s := Run(start, steps);
      && start.relay.acked <= s.relay.acked <= s.durable.cursor
      && Folded(start.paired, s.relay.log[..Delivered(s.relay.log, s.durable.cursor)]) == Some(s.durable)
  {
    assert start.relay.log[..0] == [];
    var n, m := MailboxRun(start, steps, 0, 0);
    DeliveredIs(start.paired, Run(start, steps).relay.log, n);
  }

  // ---- Redelivery ---------------------------------------------------------

  lemma {:induction false} TrimmedKeeps(w: Window, bound: nat)
    requires w.floor <= bound && forall y :: y in w.seen ==> y.sequence <= bound
    ensures Trimmed(w).floor <= bound && forall y :: y in Trimmed(w).seen ==> y in w.seen
    decreases |w.seen|
  {
    if |w.seen| > ReplayCapacity {
      assert w.seen[0] in w.seen;
      TrimmedKeeps(Window(if w.seen[0].sequence > w.floor then w.seen[0].sequence else w.floor, w.seen[1..]), bound);
    }
  }

  /** The window remembers nothing of the log beyond the first n envelopes. */
  ghost predicate WindowAt(paired: Phone, log: seq<Item>, n: nat, w: Window)
    requires n <= |log|
  {
    && (forall i :: n <= i < |log| ==> w.floor < log[i].sequence)
    && (forall y, i :: y in w.seen && n <= i < |log| ==> y.sequence < log[i].sequence && y.id != log[i].id)
  }

  lemma WindowNext(paired: Phone, log: seq<Item>, n: nat, w: Window)
    requires HonestLog(paired, log) && n < |log| && WindowAt(paired, log, n, w)
    ensures var next := Observed(w, Seen(log[n].sequence, log[n].id));
      next.Some? && WindowAt(paired, log, n + 1, next.value)
  {
    var x := Seen(log[n].sequence, log[n].id);
    assert forall i :: 0 <= i < |w.seen| ==> w.seen[i] in w.seen;
    InsertRemembers(x, w.seen);
    TrimmedKeeps(Window(w.floor, InsertSeen(x, w.seen)), x.sequence);
  }

  lemma {:induction false} WindowOfFold(paired: Phone, log: seq<Item>, n: nat, p: Phone)
    requires HonestLog(paired, log) && n <= |log| && Folded(paired, log[..n]) == Some(p)
    ensures WindowAt(paired, log, n, p.replay)
  {
    if n == 0 {
      assert log[..0] == [];
      forall y | y in paired.replay.seen ensures forall i :: 0 <= i < |log| ==> y.sequence < log[i].sequence && y.id != log[i].id {
      }
    } else {
      assert log[..n][..n - 1] == log[..n - 1];
      var before := Folded(paired, log[..n - 1]).value;
      WindowOfFold(paired, log, n - 1, before);
      WindowNext(paired, log, n - 1, before.replay);
    }
  }

  /** No envelope the relay delivers is ever refused as a replay, however often crashes
      made the phone poll it again, and no poll finds its envelopes pruned. */
  lemma RedeliveryIsNeverRefused(start: State, steps: seq<Step>)
    requires JustPaired(start) && Legal(start, steps)
    ensures var s := Run(start, steps);
      s.live.Some? ==>
        && s.relay.pruned <= s.live.value.phone.cursor
        && (s.live.value.stage.Applying? && s.live.value.stage.rest != [] ==>
              var item := s.live.value.stage.rest[0];
              Observed(s.live.value.phone.replay, Seen(item.sequence, item.id)).Some?)
  {
    assert start.relay.log[..0] == [];
    var n, m := MailboxRun(start, steps, 0, 0);
    var s := Run(start, steps);
    if s.live.Some? {
      if s.live.value.stage.Applying? && s.live.value.stage.rest != [] {
        WindowOfFold(s.paired, s.relay.log, m, s.live.value.phone);
        WindowNext(s.paired, s.relay.log, m, s.live.value.phone.replay);
        assert s.live.value.stage.rest[0] == s.relay.log[m];
      }
    }
  }

  /** The page of the next `count` envelopes after the first n. */
  function HonestPage(paired: Phone, log: seq<Item>, n: nat, count: nat): Page
    requires n + count <= |log|
  {
    var next := CursorAt(paired, log, n + count);
    var head := CursorAt(paired, log, |log|);
    Page(log[n..n + count], next, head, next < head)
  }

  /** The page an honest relay serves is one that the phone's validation accepts. */
  lemma ServedPageIsValid(paired: Phone, log: seq<Item>, n: nat, count: nat)
    requires HonestLog(paired, log) && n + count <= |log| && count <= MaximumPage
    ensures ServesNext(paired, log, n, count)
    ensures ValidPage(HonestPage(paired, log, n, count), CursorAt(paired, log, n))
  {
    DeliveredIs(paired, log, n);
  }

  predicate ServesNext(paired: Phone, log: seq<Item>, n: nat, count: nat)
    requires n + count <= |log|
  {
    && Delivered(log, CursorAt(paired, log, n)) == n
    && Served(log, CursorAt(paired, log, n), count) == HonestPage(paired, log, n, count).items
  }

  // ---- The outbox ---------------------------------------------------------

  datatype Queued = Queued(command: string, sequence: nat)

  datatype Outbox = Outbox(sequence: nat, items: seq<Queued>)

  /** The part of `validate_state` that concerns the outbox. */
  predicate ValidOutbox(o: Outbox) {
    && |o.items| <= MaximumOutbox
    && (forall i :: 0 <= i < |o.items| ==> o.items[i].sequence <= o.sequence)
    && forall i, j :: 0 <= i < j < |o.items| ==>
         o.items[i].command != o.items[j].command && o.items[i].sequence != o.items[j].sequence
  }

  /** `enqueue`, with the sequence that `seal_command` takes. */
  function Enqueued(o: Outbox, command: string): Option<Outbox> {
    if exists i :: 0 <= i < |o.items| && o.items[i].command == command then None
    else Some(Outbox(o.sequence + 1, o.items + [Queued(command, o.sequence + 1)]))
  }

  /** A new command leaves an outbox that can be stored exactly while there is room; its
      sequence is one no queued envelope has. */
  lemma EnqueuedIsStorableExactly(o: Outbox, command: string)
    requires ValidOutbox(o) && Enqueued(o, command).Some?
    ensures ValidOutbox(Enqueued(o, command).value) <==> |o.items| < MaximumOutbox
    ensures forall i :: 0 <= i < |o.items| ==> o.items[i].sequence < Enqueued(o, command).value.sequence
  {
  }
}
