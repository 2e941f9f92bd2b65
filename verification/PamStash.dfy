/**
  Logins dialled for a page load wait here, by session cookie, for the upgrade request that will use
  them. A login must end up with exactly one owner: waiting here, handed to one caller, or closed.
 */
module PamStash {
  import opened Common

  /** A stashed login. `id` is the entry's identity: no two entries made have the same. */
  datatype Entry = Entry(id: nat, login: int, credential: int, expires: int)

  const TTL := 30

  /** Where a login is. */
  datatype Place = Waiting(sid: string) | Handed(k: nat) | Closed(k: nat)

  // ---- each operation as one step --------------------------------------------------------------

  class Stash {
    var pending: map<string, Entry>
    var made: nat
    /** The logins handed out, and those closed, in order. */
    var handed: seq<int>
    var closed: seq<int>
    /** Every login ever accepted, and where it is. */
    ghost var place: map<int, Place>

    constructor ()
      ensures Valid() && place == map[]
    {
      pending, made, handed, closed, place := map[], 0, [], [], map[];
    }

    /** Every login accepted is in exactly the place it is said to be in, and nothing else is anywhere. */
    ghost predicate Valid()
      reads this
    {
      && Placed(pending, handed, closed, place)
      && (forall sid :: sid in pending ==> pending[sid].id < made)
    }

    method Close(login: int)
      modifies this`closed
      ensures closed == old(closed) + [login]
    {
      closed := closed + [login];
    }

    /**
      Takes in a login. Without a cookie to file it under, or without a login, nothing happens: that
      login is then nobody's here.
     */
    method Put(sid: string, credential: int, login: Option<int>, now: int) returns (entry: Option<Entry>)
      requires Valid() && (login.Some? ==> login.value !in place)
      modifies this
      ensures Valid()
      ensures login.Some? ==> (login.value in place <==> sid != "")
      ensures entry.Some? <==> sid != "" && login.Some?
      ensures entry.Some? ==> place == Moved(old(place), old(pending), old(|closed|), sid)[login.value := Waiting(sid)]
                              && sid in pending && pending[sid] == entry.value && entry.value.expires == now + 30
                              && entry.value.credential == credential
      ensures entry.Some? ==>
                && pending == old(pending)[sid := entry.value] && entry.value.login == login.value
                && closed == old(closed) + if sid in old(pending) then [old(pending)[sid].login] else []
      ensures entry.None? ==> place == old(place) && pending == old(pending) && closed == old(closed)
      ensures handed == old(handed)
    {
      if sid == "" || login.None? {
        return None;
      }
      var e := Entry(made, login.value, credential, now + TTL);
      made := made + 1;
      place := Moved(place, pending, |closed|, sid)[login.value := Waiting(sid)];
      if sid in pending {
        var before := pending[sid];
        pending := pending[sid := e];
        Close(before.login);
      } else {
        pending := pending[sid := e];
      }
      return Some(e);
    }

    /** The timer of one entry: closes it if it is still the one waiting. */
    method Expire(sid: string, entry: Entry)
      requires Valid()
      modifies this
      ensures Valid()
      ensures sid in old(pending) && old(pending)[sid] == entry ==>
                pending == old(pending) - {sid} && closed == old(closed) + [entry.login]
      ensures !(sid in old(pending) && old(pending)[sid] == entry) ==> pending == old(pending) && closed == old(closed)
      ensures place.Keys == old(place).Keys && handed == old(handed)
    {
      if sid !in pending || pending[sid] != entry {
        return;
      }
      place := Moved(place, pending, |closed|, sid);
      pending := pending - {sid};
      Close(entry.login);
    }

    /** Claims the login waiting under this cookie, if it was dialled with the same credentials. */
    method Take(sid: string, credential: int, now: int) returns (login: Option<int>)
      requires Valid()
      modifies this
      ensures Valid()
      ensures login.Some? <==> sid != "" && sid in old(pending) && now <= old(pending)[sid].expires
                               && old(pending)[sid].credential == credential
      ensures login.Some? ==> old(place).Items >= {(login.value, Waiting(sid))}
                              && login.value == old(pending)[sid].login && handed == old(handed) + [login.value]
                              && pending == old(pending) - {sid} && closed == old(closed)
      ensures login.None? ==> handed == old(handed)
      ensures login.None? && sid != "" && sid in old(pending) && now > old(pending)[sid].expires ==>
                pending == old(pending) - {sid} && closed == old(closed) + [old(pending)[sid].login]
      ensures login.None? && (sid == "" || sid !in old(pending) || now <= old(pending)[sid].expires) ==>
                pending == old(pending) && closed == old(closed)
      ensures place.Keys == old(place).Keys
    {
      if sid == "" || sid !in pending {
        return None;
      }
      var entry := pending[sid];
      if now > entry.expires {
        place := Moved(place, pending, |closed|, sid);
        pending := pending - {sid};
        Close(entry.login);
        return None;
      }
      if entry.credential != credential {
        return None;
      }
      pending := pending - {sid};
      place := place[entry.login := Handed(|handed|)];
      handed := handed + [entry.login];
      return Some(entry.login);
    }
  }

  /** The login waiting under sid, if any, becomes the k-th to be closed. */
  function Moved(place: map<int, Place>, pending: map<string, Entry>, k: nat, sid: string): map<int, Place> {
    if sid in pending then place[pending[sid].login := Closed(k)] else place
  }

  /** Each login has one place and is there; whatever is somewhere has that place. */
  ghost predicate Placed(pending: map<string, Entry>, handed: seq<int>, closed: seq<int>, place: map<int, Place>) {
    && (forall sid :: sid in pending ==> pending[sid].login in place && place[pending[sid].login] == Waiting(sid))
    && (forall k :: 0 <= k < |handed| ==> handed[k] in place && place[handed[k]] == Handed(k))
    && (forall k :: 0 <= k < |closed| ==> closed[k] in place && place[closed[k]] == Closed(k))
    && (forall l :: l in place ==>
         match place[l]
         case Waiting(sid) => sid in pending && pending[sid].login == l
         case Handed(k) => k < |handed| && handed[k] == l
         case Closed(k) => k < |closed| && closed[k] == l)
  }

  /** In particular no login is handed out twice, closed twice, or both, or either while it waits. */
  lemma {:induction false} OneOwner(pending: map<string, Entry>, handed: seq<int>, closed: seq<int>,
                                    place: map<int, Place>)
    requires Placed(pending, handed, closed, place)
    ensures forall i, j :: 0 <= i < |handed| && 0 <= j < |handed| && handed[i] == handed[j] ==> i == j
    ensures forall i, j :: 0 <= i < |closed| && 0 <= j < |closed| && closed[i] == closed[j] ==> i == j
    ensures forall i, j :: 0 <= i < |handed| && 0 <= j < |closed| ==> handed[i] != closed[j]
    ensures forall sid :: sid in pending ==> pending[sid].login !in handed && pending[sid].login !in closed
    ensures forall l :: l in place ==>
              l in handed || l in closed || exists sid :: sid in pending && pending[sid].login == l
  {
    forall l | l in place
      ensures l in handed || l in closed || exists sid :: sid in pending && pending[sid].login == l
    {
      match place[l]
      case Waiting(sid) => assert pending[sid].login == l;
      case Handed(k) => assert handed[k] == l;
      case Closed(k) => assert closed[k] == l;
    }
  }

  // ---- single map operations, interleaved ------------------------------------------------------

  /** A caller between two of its map operations. */
  datatype Thread =
    | Arriving(sid: string, entry: Entry)
    | Closing(entry: Entry)
    | Asking(sid: string, credential: int, now: int)
    | Holding(sid: string, entry: Entry)
    | Expiring(sid: string, entry: Entry)
    | Deleting(sid: string, entry: Entry)
    | Done

  datatype System = System(pending: map<string, Entry>, threads: seq<Thread>, handed: seq<int>, closed: seq<int>)

  /**
    The next operation of thread i. A claim is withdrawn if its entry is gone by then; an expired entry,
    once found, is deleted and closed without another look.
   */
  function Step(s: System, i: nat): (t: System)
    requires i < |s.threads|
    ensures |t.threads| == |s.threads|
  {
    match s.threads[i]
    case Arriving(sid, entry) =>
      s.(pending := s.pending[sid := entry],
         threads := s.threads[i := if sid in s.pending then Closing(s.pending[sid]) else Done])
    case Closing(entry) => s.(closed := s.closed + [entry.login], threads := s.threads[i := Done])
    case Asking(sid, credential, now) =>
      s.(threads := s.threads[i :=
           if sid !in s.pending then Done
           else if now > s.pending[sid].expires then Deleting(sid, s.pending[sid])
           else if s.pending[sid].credential == credential then Holding(sid, s.pending[sid])
           else Done])
    case Holding(sid, entry) =>
      if sid in s.pending && s.pending[sid] == entry then
        s.(pending := s.pending - {sid}, handed := s.handed + [entry.login], threads := s.threads[i := Done])
      else
        s.(threads := s.threads[i := Done])
    case Expiring(sid, entry) =>
      s.(threads := s.threads[i := if sid in s.pending && s.pending[sid] == entry then Deleting(sid, entry) else Done])
    case Deleting(sid, entry) => s.(pending := s.pending - {sid}, threads := s.threads[i := Closing(entry)])
    case Done => s
  }

  /** Each number in the schedule is the thread that takes the next step. */
  function Steps(s: System, schedule: seq<nat>): (t: System)
    requires forall k :: 0 <= k < |schedule| ==> schedule[k] < |s.threads|
    ensures |t.threads| == |s.threads|
  {
    if schedule == [] then s else Step(Steps(s, schedule[..|schedule| - 1]), schedule[|schedule| - 1])
  }

  /** The same with callers under way: a login may also be with a thread that brings it or is to close it. */
  datatype Spot = At(p: Place) | With(thread: nat)

  ghost predicate InPlace(s: System, spot: map<int, Spot>) {
    && (forall sid :: sid in s.pending ==>
         s.pending[sid].login in spot && spot[s.pending[sid].login] == At(Waiting(sid)))
    && (forall k :: 0 <= k < |s.handed| ==> s.handed[k] in spot && spot[s.handed[k]] == At(Handed(k)))
    && (forall k :: 0 <= k < |s.closed| ==> s.closed[k] in spot && spot[s.closed[k]] == At(Closed(k)))
    && (forall i :: 0 <= i < |s.threads| && (s.threads[i].Arriving? || s.threads[i].Closing?) ==>
         s.threads[i].entry.login in spot && spot[s.threads[i].entry.login] == With(i))
    && (forall i :: 0 <= i < |s.threads| && s.threads[i].Deleting? ==> s.threads[i].entry.login in spot)
    && (forall l :: l in spot ==>
         match spot[l]
         case At(Waiting(sid)) => sid in s.pending && s.pending[sid].login == l
         case At(Handed(k)) => k < |s.handed| && s.handed[k] == l
         case At(Closed(k)) => k < |s.closed| && s.closed[k] == l
         case With(i) => i < |s.threads| && (s.threads[i].Arriving? || s.threads[i].Closing?) &&
                         s.threads[i].entry.login == l)
  }

  /** Where everything is after a step of thread i. */
  function SpotsAfter(s: System, spot: map<int, Spot>, i: nat): map<int, Spot>
    requires i < |s.threads|
  {
    match s.threads[i]
    case Arriving(sid, entry) =>
      (if sid in s.pending then spot[s.pending[sid].login := With(i)] else spot)[entry.login := At(Waiting(sid))]
    case Closing(entry) => spot[entry.login := At(Closed(|s.closed|))]
    case Holding(sid, entry) =>
      if sid in s.pending && s.pending[sid] == entry then spot[entry.login := At(Handed(|s.handed|))] else spot
    case Deleting(_, entry) => spot[entry.login := With(i)]
    case _ => spot
  }

  /** The thread is about to delete what it found, and that is no longer there. */
  predicate Races(s: System, i: nat)
    requires i < |s.threads|
  {
    var t := s.threads[i];
    t.Deleting? && !(t.sid in s.pending && s.pending[t.sid].login == t.entry.login)
  }

  lemma {:induction false} SwapInFresh(s: System, spot: map<int, Spot>, i: nat)
    requires i < |s.threads| && InPlace(s, spot) && s.threads[i].Arriving? && s.threads[i].sid !in s.pending
    ensures InPlace(Step(s, i), SpotsAfter(s, spot, i))
    ensures SpotsAfter(s, spot, i).Keys == spot.Keys
  {
  }

  lemma {:induction false} SwapOut(s: System, spot: map<int, Spot>, i: nat)
    requires i < |s.threads| && InPlace(s, spot) && s.threads[i].Arriving? && s.threads[i].sid in s.pending
    ensures InPlace(Step(s, i), SpotsAfter(s, spot, i))
    ensures SpotsAfter(s, spot, i).Keys == spot.Keys
  {
  }

  lemma {:induction false} CloseOwn(s: System, spot: map<int, Spot>, i: nat)
    requires i < |s.threads| && InPlace(s, spot) && s.threads[i].Closing?
    ensures InPlace(Step(s, i), SpotsAfter(s, spot, i))
    ensures SpotsAfter(s, spot, i).Keys == spot.Keys
  {
  }

  lemma {:induction false} Claim(s: System, spot: map<int, Spot>, i: nat)
    requires i < |s.threads| && InPlace(s, spot) && s.threads[i].Holding?
    ensures InPlace(Step(s, i), SpotsAfter(s, spot, i))
    ensures SpotsAfter(s, spot, i).Keys == spot.Keys
  {
  }

  lemma {:induction false} DeleteOwn(s: System, spot: map<int, Spot>, i: nat)
    requires i < |s.threads| && InPlace(s, spot) && s.threads[i].Deleting? && !Races(s, i)
    ensures InPlace(Step(s, i), SpotsAfter(s, spot, i))
    ensures SpotsAfter(s, spot, i).Keys == spot.Keys
  {
  }

  lemma {:induction false} OnlyLooks(s: System, spot: map<int, Spot>, i: nat)
    requires i < |s.threads| && InPlace(s, spot) && (s.threads[i].Asking? || s.threads[i].Expiring?)
    ensures InPlace(Step(s, i), spot)
  {
  }

  lemma {:induction false} StepKeepsPlaces(s: System, spot: map<int, Spot>, i: nat)
    requires i < |s.threads| && InPlace(s, spot) && !Races(s, i)
    ensures InPlace(Step(s, i), SpotsAfter(s, spot, i))
    ensures SpotsAfter(s, spot, i).Keys == spot.Keys
  {
    match s.threads[i]
    case Arriving(sid, _) =>
      if sid in s.pending {
        SwapOut(s, spot, i);
      } else {
        SwapInFresh(s, spot, i);
      }
    case Closing(_) => CloseOwn(s, spot, i);
    case Holding(_, _) => Claim(s, spot, i);
    case Deleting(_, _) => DeleteOwn(s, spot, i);
    case Asking(_, _, _) => OnlyLooks(s, spot, i);
    case Expiring(_, _) => OnlyLooks(s, spot, i);
    case Done =>
  }

  /** No login is handed out twice, closed twice, or both, or either while it waits. */
  predicate Exclusive(s: System) {
    && (forall i, j :: 0 <= i < j < |s.handed| ==> s.handed[i] != s.handed[j])
    && (forall i, j :: 0 <= i < j < |s.closed| ==> s.closed[i] != s.closed[j])
    && (forall i, j :: 0 <= i < |s.handed| && 0 <= j < |s.closed| ==> s.handed[i] != s.closed[j])
    && (forall sid :: sid in s.pending ==> s.pending[sid].login !in s.handed && s.pending[sid].login !in s.closed)
  }

  lemma {:induction false} PlacesExclude(s: System, spot: map<int, Spot>)
    requires InPlace(s, spot)
    ensures Exclusive(s)
  {
  }

  /** No login is lost: each is waiting, handed out, closed, or with a thread that brings it or is to close it. */
  predicate Kept(s: System, l: int) {
    || l in s.handed || l in s.closed || (exists sid :: sid in s.pending && s.pending[sid].login == l)
    || (exists i :: 0 <= i < |s.threads| && (s.threads[i].Arriving? || s.threads[i].Closing?) &&
                    s.threads[i].entry.login == l)
  }

  lemma {:induction false} PlacesKeep(s: System, spot: map<int, Spot>, l: int)
    requires InPlace(s, spot) && l in spot
    ensures Kept(s, l)
  {
    match spot[l]
    case At(Waiting(sid)) => assert s.pending[sid].login == l;
    case At(Handed(k)) => assert s.handed[k] == l;
    case At(Closed(k)) => assert s.closed[k] == l;
    case With(i) => assert s.threads[i].entry.login == l;
  }

  predicate Schedules(s: System, schedule: seq<nat>) {
    forall k :: 0 <= k < |schedule| ==> schedule[k] < |s.threads|
  }

  predicate NeverRaces(s: System, schedule: seq<nat>)
    requires Schedules(s, schedule)
  {
    schedule != [] ==>
      NeverRaces(s, schedule[..|schedule| - 1]) &&
      !Races(Steps(s, schedule[..|schedule| - 1]), schedule[|schedule| - 1])
  }

  lemma {:induction false} StepsKeepPlaces(s: System, spot: map<int, Spot>, schedule: seq<nat>)
    returns (after: map<int, Spot>)
    requires InPlace(s, spot) && Schedules(s, schedule) && NeverRaces(s, schedule)
    ensures InPlace(Steps(s, schedule), after) && after.Keys == spot.Keys
  {
    if schedule == [] {
      return spot;
    }
    var front := schedule[..|schedule| - 1];
    var between := StepsKeepPlaces(s, spot, front);
    StepKeepsPlaces(Steps(s, front), between, schedule[|schedule| - 1]);
    return SpotsAfter(Steps(s, front), between, schedule[|schedule| - 1]);
  }

  /**
    Whatever the order in which the single map operations of callers and timers interleave, no login is
    lost, handed out twice, closed twice, or both handed out and closed, unless what expired is deleted
    when it is no longer there.
   */
  lemma {:induction false} NoLoginHasTwoOwners(s: System, spot: map<int, Spot>, schedule: seq<nat>)
    requires InPlace(s, spot) && Schedules(s, schedule) && NeverRaces(s, schedule)
    ensures Exclusive(Steps(s, schedule)) && forall l :: l in spot ==> Kept(Steps(s, schedule), l)
  {
    var after := StepsKeepPlaces(s, spot, schedule);
    PlacesExclude(Steps(s, schedule), after);
    forall l | l in spot
      ensures Kept(Steps(s, schedule), l)
    {
      PlacesKeep(Steps(s, schedule), after, l);
    }
  }

  /** Callers that bring distinct logins, and any number that ask, start out that way. */
  lemma {:induction false} FreshLoginsStartInPlace(threads: seq<Thread>)
    requires forall i :: 0 <= i < |threads| ==> threads[i].Arriving? || threads[i].Asking? || threads[i].Expiring?
    requires forall i, j :: 0 <= i < j < |threads| && threads[i].Arriving? && threads[j].Arriving? ==>
               threads[i].entry.login != threads[j].entry.login
    ensures exists spot: map<int, Spot> :: InPlace(System(map[], threads, [], []), spot) &&
              forall i :: 0 <= i < |threads| && threads[i].Arriving? ==> threads[i].entry.login in spot
  {
    var spot := map i | 0 <= i < |threads| && threads[i].Arriving? :: threads[i].entry.login := With(i);
    assert InPlace(System(map[], threads, [], []), spot);
  }

  // ---- and when one is -------------------------------------------------------------------------

  ghost predicate AllWell(s: System, logins: set<int>) {
    Exclusive(s) && forall l :: l in logins ==> Kept(s, l)
  }

  /** Deleting another's entry loses its login. */
  lemma {:induction false} DeletesAnother(s: System, spot: map<int, Spot>, i: nat)
    requires i < |s.threads| && InPlace(s, spot) && Races(s, i) && s.threads[i].sid in s.pending
    ensures var l := s.pending[s.threads[i].sid].login;
            l in spot && !Kept(Step(s, i), l)
  {
  }

  /** Deleting nothing leads to closing a login that has been handed out or closed, or waits elsewhere. */
  lemma {:induction false} ClosesAnothers(s: System, spot: map<int, Spot>, i: nat)
    requires i < |s.threads| && InPlace(s, spot) && Races(s, i) && s.threads[i].sid !in s.pending
    requires spot[s.threads[i].entry.login].At?
    ensures !Exclusive(Step(Step(s, i), i))
  {
    var l, t := s.threads[i].entry.login, Step(Step(s, i), i);
    assert t.closed == s.closed + [l] && t.closed[|s.closed|] == l;
    match spot[l].p
    case Handed(k) => assert t.handed[k] == l;
    case Closed(k) => assert t.closed[k] == l;
    case Waiting(sid) => assert t.pending[sid].login == l;
  }

  /** Or one that another caller is about to stash or to close. */
  lemma {:induction false} ClosesBehind(s: System, spot: map<int, Spot>, i: nat)
    requires i < |s.threads| && InPlace(s, spot) && Races(s, i) && s.threads[i].sid !in s.pending
    requires spot[s.threads[i].entry.login].With?
    ensures var j := spot[s.threads[i].entry.login].thread;
            j < |s.threads| && j != i && !Exclusive(Step(Step(Step(s, i), i), j))
  {
    var l, t := s.threads[i].entry.login, Step(Step(s, i), i);
    var j := spot[l].thread;
    var u := Step(t, j);
    assert t.closed == s.closed + [l] && t.closed[|s.closed|] == l && t.threads[j] == s.threads[j];
    if t.threads[j].Closing? {
      assert u.closed == s.closed + [l] + [l] && u.closed[|s.closed|] == u.closed[|s.closed| + 1] == l;
    } else {
      assert u.pending[t.threads[j].sid].login == l && u.closed[|s.closed|] == l;
    }
  }

  lemma {:induction false} OneStep(s: System, schedule: seq<nat>, i: nat)
    requires Schedules(s, schedule) && i < |s.threads|
    ensures Schedules(s, schedule + [i]) && Steps(s, schedule + [i]) == Step(Steps(s, schedule), i)
  {
    assert (schedule + [i])[..|schedule + [i]| - 1] == schedule;
  }

  /**
    So the condition is exact: once a thread is about to delete what is no longer there, some order of
    the operations that are left loses a login, or closes one that has another owner.
   */
  lemma {:induction false} RacesBreak(s: System, spot: map<int, Spot>, i: nat) returns (schedule: seq<nat>)
    requires i < |s.threads| && InPlace(s, spot) && Races(s, i)
    ensures Schedules(s, schedule) && !AllWell(Steps(s, schedule), spot.Keys)
  {
    OneStep(s, [], i);
    OneStep(s, [i], i);
    assert [] + [i] == [i];
    var l := s.threads[i].entry.login;
    if s.threads[i].sid in s.pending {
      DeletesAnother(s, spot, i);
      schedule := [i];
    } else if spot[l].At? {
      ClosesAnothers(s, spot, i);
      schedule := [i] + [i];
    } else {
      ClosesBehind(s, spot, i);
      OneStep(s, [i] + [i], spot[l].thread);
      schedule := [i] + [i] + [spot[l].thread];
    }
  }

  lemma {:induction false} TakeThree(s: System, before: seq<nat>, a: nat, b: nat, c: nat)
    requires Schedules(s, before) && a < |s.threads| && b < |s.threads| && c < |s.threads|
    ensures Schedules(s, before + [a, b, c])
    ensures Steps(s, before + [a, b, c]) == Step(Step(Step(Steps(s, before), a), b), c)
  {
    OneStep(s, before, a);
    OneStep(s, before + [a], b);
    OneStep(s, before + [a] + [b], c);
    assert before + [a] + [b] + [c] == before + [a, b, c];
  }

  lemma {:induction false} SixSteps(s: System)
    requires |s.threads| == 3
    ensures Schedules(s, [0, 1, 2, 1, 2, 2])
    ensures Steps(s, [0, 1, 2, 1, 2, 2]) == Step(Step(Step(Step(Step(Step(s, 0), 1), 2), 1), 2), 2)
  {
    TakeThree(s, [], 0, 1, 2);
    assert [] + [0, 1, 2] == [0, 1, 2] && [0, 1, 2] + [1, 2, 2] == [0, 1, 2, 1, 2, 2];
    assert Steps(s, []) == s;
    hide Step, Steps;
    TakeThree(s, [0, 1, 2], 1, 2, 2);
  }

  lemma {:induction false} BothFound(sid: string, entry: Entry, s: System)
    requires s.threads == [Arriving(sid, entry), Asking(sid, entry.credential, entry.expires), Expiring(sid, entry)]
    requires s.pending == map[] && s.handed == [] && s.closed == []
    ensures Step(Step(Step(s, 0), 1), 2) ==
            System(map[sid := entry], [Done, Holding(sid, entry), Deleting(sid, entry)], [], [])
  {
  }

  lemma {:induction false} BothAct(sid: string, entry: Entry, s: System)
    requires s == System(map[sid := entry], [Done, Holding(sid, entry), Deleting(sid, entry)], [], [])
    ensures var t := Step(Step(Step(s, 1), 2), 2);
            t.handed == t.closed == [entry.login]
  {
    assert Step(Step(s, 1), 2).threads == [Done, Done, Closing(entry)];
  }

  /** A caller claims a login just as its timer runs out: it is handed out, and then closed. */
  lemma {:induction false} HandedOutAndClosed(sid: string, entry: Entry)
    ensures var threads := [Arriving(sid, entry), Asking(sid, entry.credential, entry.expires), Expiring(sid, entry)];
            var end := Steps(System(map[], threads, [], []), [0, 1, 2, 1, 2, 2]);
            end.handed == end.closed == [entry.login]
  {
    var threads := [Arriving(sid, entry), Asking(sid, entry.credential, entry.expires), Expiring(sid, entry)];
    var s := System(map[], threads, [], []);
    BothFound(sid, entry, s);
    SixSteps(s);
    BothAct(sid, entry, Step(Step(Step(s, 0), 1), 2));
    hide *;
  }

  /** Left to itself each does what Stash does at once. */
  lemma {:induction false} Undisturbed(s: System, i: nat)
    requires i < |s.threads|
    ensures var c, two := s.threads[i], Step(Step(s, i), i);
            match c
            case Arriving(sid, entry) =>
              && two.pending == s.pending[sid := entry] && two.handed == s.handed
              && two.closed == s.closed + if sid in s.pending then [s.pending[sid].login] else []
            case Asking(sid, credential, now) =>
              var three := Step(two, i);
              if sid in s.pending && now > s.pending[sid].expires then
                && three.pending == s.pending - {sid} && three.handed == s.handed
                && three.closed == s.closed + [s.pending[sid].login]
              else if sid in s.pending && s.pending[sid].credential == credential then
                && two.pending == s.pending - {sid} && two.closed == s.closed
                && two.handed == s.handed + [s.pending[sid].login]
              else two.pending == s.pending && two.handed == s.handed && two.closed == s.closed
            case Expiring(sid, entry) =>
              var three := Step(two, i);
              && three.handed == s.handed
              && if sid in s.pending && s.pending[sid] == entry
                 then three.pending == s.pending - {sid} && three.closed == s.closed + [entry.login]
                 else three.pending == s.pending && three.closed == s.closed
            case _ => true
  {
  }
}
