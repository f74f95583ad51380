/** When expired rows are swept cannot be observed.

    Only `purge_expired`'s own count, `tombstone_count` and the audit log show it; the replies
    to register, enqueue, fetch, acknowledge, delete_mailbox and queued_message_count_at do
    not depend on how many sweeps ran in between, when, or which were rolled back. */
module Sweeps {
  import opened Bytes
  import opened Capability
  import opened Schema
  import opened Commands
  import opened Runs

  /** Commands that do nothing but sweep: an explicit purge, or reopening the database. */
  predicate SweepOnly(cmd: Command) {
    cmd.PurgeExpired? || cmd.Reopen?
  }

  /** A run with its bare sweeps taken out. */
  ghost function Requests(steps: seq<Step>): seq<Step> {
    if steps == [] then []
    else (if SweepOnly(steps[0].cmd) then [] else [steps[0]]) + Requests(steps[1..])
  }

  /** The replies to everything but the bare sweeps. */
  ghost function Observed(c: Crypto, db: Tables, steps: seq<Step>): seq<Reply>
    decreases |steps|
  {
    if steps == [] then []
    else
      var cmd, now := steps[0].cmd, steps[0].now;
      (if SweepOnly(cmd) then [] else [ReplyTo(c, db, cmd, now)])
      + Observed(c, Next(c, db, cmd, now), steps[1..])
  }

  /** Databases that a sweep at `t` makes equal. */
  ghost predicate Alike(x: Tables, y: Tables, t: int) {
    Sweep(x, t) == Sweep(y, t)
  }

  lemma AlikeLater(x: Tables, y: Tables, t: int, now: int)
    requires Alike(x, y, t) && t <= now
    ensures Alike(x, y, now)
  {
    SweepAbsorbs(x, t, now);
    SweepAbsorbs(y, t, now);
  }

  lemma AlikeSwept(x: Tables, y: Tables, now: int)
    requires Alike(x, y, now)
    ensures Alike(Sweep(x, now), y, now)
  {
    SweepAbsorbs(x, now, now);
  }

  /** Alike databases answer a request alike and stay alike. */
  lemma AlikeStep(c: Crypto, x: Tables, y: Tables, cmd: Command, now: U64)
    requires Alike(x, y, now) && !SweepOnly(cmd)
    ensures ReplyTo(c, x, cmd, now) == ReplyTo(c, y, cmd, now)
    ensures Alike(Next(c, x, cmd, now), Next(c, y, cmd, now), now)
  {
  }

  /** `tombstone_count` is an exception: of two databases no request can tell apart, one swept and
      one not, it counts more in the unswept one exactly when a tombstone there is due. */
  lemma TombstoneCountSeesSweeps(db: Tables, now: int)
    ensures Alike(Sweep(db, now), db, now)
    ensures |Sweep(db, now).tombstones| < |db.tombstones| <==>
            exists k :: k in db.tombstones && db.tombstones[k] <= now
    ensures |Sweep(db, now).tombstones| <= |db.tombstones|
  {
    AlikeSwept(db, db, now);
    LiveCount(db.tombstones, now);
  }

  lemma BareSweepStep(c: Crypto, x: Tables, y: Tables, cmd: Command, now: U64)
    requires Alike(x, y, now) && SweepOnly(cmd)
    ensures Alike(Next(c, x, cmd, now), y, now)
  {
    if now <= I64_MAX { AlikeSwept(x, y, now); }
  }

  lemma {:induction false} SweepsDoNotShow(c: Crypto, x: Tables, y: Tables, t: int, steps: seq<Step>)
    requires Nondecreasing(steps) && (steps != [] ==> t <= steps[0].now)
    requires Alike(x, y, t)
    ensures Observed(c, x, steps) == Observed(c, y, Requests(steps))
    decreases |steps|
  {
    if steps == [] {
    } else {
      var cmd, now := steps[0].cmd, steps[0].now;
      assert Nondecreasing(steps[1..]);
      AlikeLater(x, y, t, now);
      if SweepOnly(cmd) {
        BareSweepStep(c, x, y, cmd, now);
        SweepsDoNotShow(c, Next(c, x, cmd, now), y, now, steps[1..]);
        assert Requests(steps) == Requests(steps[1..]);
      } else {
        AlikeStep(c, x, y, cmd, now);
        SweepsDoNotShow(c, Next(c, x, cmd, now), Next(c, y, cmd, now), now, steps[1..]);
        assert Requests(steps)[1..] == Requests(steps[1..]);
      }
    }
  }

  /** Any two schedules of bare sweeps around the same requests give the same replies. */
  lemma ScheduleDoesNotMatter(c: Crypto, db: Tables, a: seq<Step>, b: seq<Step>)
    requires Nondecreasing(a) && Nondecreasing(b)
    requires Requests(a) == Requests(b)
    ensures Observed(c, db, a) == Observed(c, db, b)
  {
    SweepsDoNotShow(c, db, db, if a == [] then 0 else a[0].now, a);
    SweepsDoNotShow(c, db, db, if b == [] then 0 else b[0].now, b);
  }

  /** The relay as documented, which sweeps at every operation: a command that fails still
      commits its sweep. */
  ghost function EagerNext(c: Crypto, db: Tables, cmd: Command, now: U64): Tables {
    if Transact(c, db, cmd, now).Reject? && now <= I64_MAX then Sweep(db, now)
    else Next(c, db, cmd, now)
  }

  ghost function EagerReplies(c: Crypto, db: Tables, steps: seq<Step>): seq<Reply>
    decreases |steps|
  {
    if steps == [] then []
    else
      var cmd, now := steps[0].cmd, steps[0].now;
      (if SweepOnly(cmd) then [] else [ReplyTo(c, db, cmd, now)])
      + EagerReplies(c, EagerNext(c, db, cmd, now), steps[1..])
  }

  /** Losing the sweeps of failed commands to rollback, as the code does, is unobservable. */
  lemma {:induction false} LostSweepsDoNotShow(c: Crypto, x: Tables, y: Tables, t: int, steps: seq<Step>)
    requires Nondecreasing(steps) && (steps != [] ==> t <= steps[0].now)
    requires Alike(x, y, t)
    ensures EagerReplies(c, x, steps) == Observed(c, y, steps)
    decreases |steps|
  {
    if steps == [] {
    } else {
      var cmd, now := steps[0].cmd, steps[0].now;
      assert Nondecreasing(steps[1..]);
      AlikeLater(x, y, t, now);
      if SweepOnly(cmd) {
        BareSweepStep(c, x, y, cmd, now);
        BareSweepStep(c, y, Next(c, x, cmd, now), cmd, now);
      } else {
        AlikeStep(c, x, y, cmd, now);
        AlikeSwept(x, y, now);
      }
      LostSweepsDoNotShow(c, EagerNext(c, x, cmd, now), Next(c, y, cmd, now), now, steps[1..]);
    }
  }
}
