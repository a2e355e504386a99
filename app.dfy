/**
  The root component of the console (App.tsx): the initial photo list and
  booth status, the periodic telemetry update, and deletion of a photo.
  The two random draws of the telemetry update are inputs here.
 */
module App {
  import opened Types

  /** Minutes of stagger between the capture times of the initial photos, in milliseconds. */
  const StaggerMillis: int := 15 * 60 * 1000

  /** The decimal rendering of a one-digit index, as a template literal prints it. */
  function Digit(i: nat): (s: string)
    requires i < 10
    ensures |s| == 1 && '0' <= s[0] <= '9'
  {
    [('0' as int + i) as char]
  }

  function PhotoId(i: nat): string
    requires i < 10
  {
    "photo-" + Digit(i)
  }

  function InitialPhoto(i: nat, now: int): Photo
    requires i < 10
  {
    Photo(PhotoId(i), "https://picsum.photos/400/600?random=" + Digit(i),
          Timestamp(now - i * StaggerMillis), None, None)
  }

  /** No two photos share an id. */
  ghost predicate UniqueIds(ps: seq<Photo>)
  {
    forall i, j :: 0 <= i < j < |ps| ==> ps[i].id != ps[j].id
  }

  /**
    The eight dummy photos the console starts with. `Date.now()` is read once
    per photo, inside the `map` callback: `clock[i]` is the reading for photo i.
   */
  function InitialPhotos(clock: seq<int>): (ps: seq<Photo>)
    requires |clock| == 8
    ensures |ps| == 8
    ensures forall i :: 0 <= i < 8 ==> ps[i].id == "photo-" + Digit(i)
    ensures forall i :: 0 <= i < 8 ==> ps[i].url == "https://picsum.photos/400/600?random=" + Digit(i)
    ensures forall i :: 0 <= i < 8 ==> ps[i].timestamp.millis == clock[i] - i * StaggerMillis
    ensures forall i :: 0 <= i < 8 ==> ps[i].aiCaption == None && ps[i].isPrinting == None
  {
    seq(8, i requires 0 <= i < 8 => InitialPhoto(i, clock[i]))
  }

  lemma InitialPhotosUnique(clock: seq<int>)
    requires |clock| == 8
    ensures UniqueIds(InitialPhotos(clock))
  {
    var ps := InitialPhotos(clock);
    forall i, j | 0 <= i < j < |ps| ensures ps[i].id != ps[j].id {
      assert ps[i].id[6] == Digit(i)[0];
      assert ps[j].id[6] == Digit(j)[0];
    }
  }

  /** What the booth status always satisfies: a percentage of paper and a count of sessions. */
  ghost predicate StatusInvariant(s: BoothStatus)
  {
    0 <= s.paperLevel <= 100 && s.sessionCount >= 0
  }

  function InitialStatus(): (s: BoothStatus)
    ensures s.isOnline && s.printerStatus == Ready
    ensures s.paperLevel == 45 && s.sessionCount == 142 && s.revenue == Money(850.0)
    ensures StatusInvariant(s)
  {
    BoothStatus(true, 45, Ready, 142, Money(850.0))
  }

  function Max(a: int, b: int): int
  {
    if a < b then b else a
  }

  /**
    One run of the telemetry updater: `paperOut` is the draw that lowers the
    paper level by one point, `newSession` the draw that counts a session.
   */
  function TickStatus(prev: BoothStatus, paperOut: bool, newSession: bool): (next: BoothStatus)
    ensures next.paperLevel >= 0
    ensures prev.paperLevel >= 0 ==>
      next.paperLevel == prev.paperLevel || next.paperLevel == prev.paperLevel - 1
    ensures next.paperLevel < prev.paperLevel <==> paperOut && prev.paperLevel > 0
    ensures next.sessionCount == prev.sessionCount || next.sessionCount == prev.sessionCount + 1
    ensures next.sessionCount > prev.sessionCount <==> newSession
    ensures next.isOnline == prev.isOnline && next.printerStatus == prev.printerStatus
    ensures next.revenue == prev.revenue
  {
    prev.(paperLevel := Max(0, prev.paperLevel - (if paperOut then 1 else 0)),
          sessionCount := prev.sessionCount + (if newSession then 1 else 0))
  }

  /** The pair of random draws consumed by one telemetry update. */
  datatype Draw = Draw(paperOut: bool, newSession: bool)

  /**
    The status after the telemetry updater has run once per draw, in order:
    the session count grows by at most one per update, the paper level is
    non-negative once any update ran, and the other fields stay as they were.
   */
  function RunTicks(s: BoothStatus, draws: seq<Draw>): (r: BoothStatus)
    ensures s.sessionCount <= r.sessionCount <= s.sessionCount + |draws|
    ensures draws != [] ==> r.paperLevel >= 0
    ensures r.isOnline == s.isOnline && r.printerStatus == s.printerStatus && r.revenue == s.revenue
    decreases |draws|
  {
    if draws == [] then s
    else RunTicks(TickStatus(s, draws[0].paperOut, draws[0].newSession), draws[1..])
  }

  /**
    Across any number of updates the paper level stays a percentage and never
    rises, the session count never falls and rises by at most one per update,
    and the other fields stay as they were.
   */
  lemma {:induction false} RunTicksBounds(s: BoothStatus, draws: seq<Draw>)
    requires StatusInvariant(s)
    ensures var r := RunTicks(s, draws);
      && StatusInvariant(r)
      && r.paperLevel <= s.paperLevel
      && s.paperLevel - |draws| <= r.paperLevel
      && s.sessionCount <= r.sessionCount <= s.sessionCount + |draws|
      && r.isOnline == s.isOnline && r.printerStatus == s.printerStatus && r.revenue == s.revenue
    decreases |draws|
  {
    if draws != [] {
      RunTicksBounds(TickStatus(s, draws[0].paperOut, draws[0].newSession), draws[1..]);
    }
  }

  /** The photo list without the photos whose id is `id`, in their original order. */
  function WithoutId(ps: seq<Photo>, id: string): (r: seq<Photo>)
    ensures forall p :: p in r <==> p in ps && p.id != id
    ensures |r| <= |ps|
    decreases |ps|
  {
    if ps == [] then []
    else if ps[0].id != id then [ps[0]] + WithoutId(ps[1..], id)
    else WithoutId(ps[1..], id)
  }

  /** `a` is `b` with some elements dropped and the rest kept in order. */
  ghost predicate Subsequence<T>(a: seq<T>, b: seq<T>)
    decreases |b|
  {
    if a == [] then true
    else if b == [] then false
    else if a[0] == b[0] then Subsequence(a[1..], b[1..])
    else Subsequence(a, b[1..])
  }

  lemma {:induction false} WithoutIdIsSubsequence(ps: seq<Photo>, id: string)
    ensures Subsequence(WithoutId(ps, id), ps)
    decreases |ps|
  {
    if ps != [] {
      WithoutIdIsSubsequence(ps[1..], id);
      var r := WithoutId(ps, id);
      if ps[0].id != id {
        assert r[0] == ps[0] && r[1..] == WithoutId(ps[1..], id);
      } else {
        assert r == WithoutId(ps[1..], id);
        if r != [] {
          assert r[0] in ps[1..];
          assert r[0] != ps[0];
        }
      }
    }
  }

  /** Deleting from a concatenation deletes from each part: the order of the survivors is kept. */
  lemma {:induction false} WithoutIdAppend(a: seq<Photo>, b: seq<Photo>, id: string)
    ensures WithoutId(a + b, id) == WithoutId(a, id) + WithoutId(b, id)
    decreases |a|
  {
    if a == [] {
      assert a + b == b;
    } else {
      assert (a + b)[0] == a[0];
      assert (a + b)[1..] == a[1..] + b;
      WithoutIdAppend(a[1..], b, id);
    }
  }

  /** Deleting an id changes the list exactly when some photo carries that id. */
  lemma {:induction false} WithoutIdUnchanged(ps: seq<Photo>, id: string)
    ensures WithoutId(ps, id) == ps <==> forall p :: p in ps ==> p.id != id
    decreases |ps|
  {
    if ps != [] {
      WithoutIdUnchanged(ps[1..], id);
      if forall p :: p in ps ==> p.id != id {
        assert forall p :: p in ps[1..] ==> p in ps;
        assert ps == [ps[0]] + ps[1..];
      } else {
        var q :| q in ps && q.id == id;
        assert q !in WithoutId(ps, id);
      }
    }
  }

  /** Deleting the same id twice is deleting it once. */
  lemma WithoutIdIdempotent(ps: seq<Photo>, id: string)
    ensures WithoutId(WithoutId(ps, id), id) == WithoutId(ps, id)
  {
    WithoutIdUnchanged(WithoutId(ps, id), id);
  }

  lemma {:induction false} WithoutIdKeepsUnique(ps: seq<Photo>, id: string)
    requires UniqueIds(ps)
    ensures UniqueIds(WithoutId(ps, id))
    decreases |ps|
  {
    if ps != [] {
      var tail := ps[1..];
      assert UniqueIds(tail) by {
        forall i, j | 0 <= i < j < |tail| ensures tail[i].id != tail[j].id {
          assert tail[i] == ps[i + 1] && tail[j] == ps[j + 1];
        }
      }
      WithoutIdKeepsUnique(tail, id);
      if ps[0].id != id {
        var rest := WithoutId(tail, id);
        var r := [ps[0]] + rest;
        forall j | 0 < j < |r| ensures r[0].id != r[j].id {
          assert r[j] == rest[j - 1];
          assert rest[j - 1] in tail;
          var k :| 0 <= k < |tail| && tail[k] == rest[j - 1];
          assert tail[k] == ps[k + 1];
        }
        forall i, j | 0 < i < j < |r| ensures r[i].id != r[j].id {
          assert r[i] == rest[i - 1] && r[j] == rest[j - 1];
        }
      }
    }
  }

  /**
    The two pieces of state App.tsx holds: the booth status, replaced by each
    telemetry update, and the photo list, replaced by each deletion.
   */
  class AppState {
    var status: BoothStatus
    var photos: seq<Photo>

    ghost predicate Valid()
      reads this
    {
      StatusInvariant(status) && UniqueIds(photos)
    }

    /** `clock` holds the eight clock readings the initial timestamps are computed from. */
    constructor (clock: seq<int>)
      requires |clock| == 8
      ensures Valid()
      ensures status == InitialStatus() && photos == InitialPhotos(clock)
    {
      status := InitialStatus();
      photos := InitialPhotos(clock);
      InitialPhotosUnique(clock);
    }

    /** One firing of the three-second telemetry interval. */
    method Tick(paperOut: bool, newSession: bool)
      modifies this
      ensures status == TickStatus(old(status), paperOut, newSession)
      ensures photos == old(photos)
      ensures old(Valid()) ==> Valid()
    {
      status := TickStatus(status, paperOut, newSession);
    }

    /** `handleDeletePhoto`: drop every photo with this id. */
    method DeletePhoto(id: string)
      modifies this
      ensures photos == WithoutId(old(photos), id)
      ensures status == old(status)
      ensures old(Valid()) ==> Valid()
    {
      if UniqueIds(photos) {
        WithoutIdKeepsUnique(photos, id);
      }
      photos := WithoutId(photos, id);
    }
  }
}
