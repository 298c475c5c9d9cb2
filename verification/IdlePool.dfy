/**
 The pool object of `internal/browser/pool/pool.go`: each method below is one critical section, with the
 map and the timers changed in place.  How the sections interleave is the subject of PoolProtocol.
 */
module IdlePool {
  import opened PoolProtocol

  /** The timer of a pooled browser.  Once it fired or was stopped, stopping it changes nothing. */
  datatype Alarm = Unset | Armed(due: int) | Fired | Stopped
  {
    function Stop(): Alarm {
      if Armed? then Stopped else this
    }
  }

  class PooledBrowser {
    const id: Browser
    const tm: int
    var idle: Alarm

    constructor (id: Browser, now: int)
      ensures this.id == id && tm == now && idle == Unset
    {
      this.id, tm, idle := id, now, Unset;
    }
  }

  /** What `checkin` decides before it reaches pushIdle. */
  datatype Verdict = Reject | Recycle | Keep

  class IdleBrowserPool {
    const cfg: Config
    var idleWd: map<Browser, PooledBrowser>
    var shutdown: bool

    /** Entries are filed under their own id. */
    ghost predicate Valid()
      reads this
    {
      forall id :: id in idleWd ==> idleWd[id].id == id
    }

    constructor (cfg: Config)
      ensures Valid() && idleWd == map[] && !shutdown && this.cfg == cfg
    {
      this.cfg := cfg;
      idleWd, shutdown := map[], false;
    }

    /** Takes some idle browser out and stops its timer; every other entry and timer stays. */
    method PopIdle() returns (wd: PooledBrowser?, down: bool)
      requires Valid()
      modifies this`idleWd, idleWd.Values
      ensures Valid() && down == shutdown
      ensures down || old(idleWd) == map[] ==> wd == null && idleWd == old(idleWd)
      ensures !down && old(idleWd) != map[] ==>
                && wd != null && wd.id in old(idleWd) && old(idleWd)[wd.id] == wd
                && idleWd == old(idleWd) - {wd.id}
                && wd.idle == old(wd.idle).Stop()
      ensures forall id :: id in idleWd ==> unchanged(idleWd[id])
    {
      wd, down := null, shutdown;
      if !shutdown && idleWd.Keys != {} {
        var id :| id in idleWd.Keys;
        wd := idleWd[id];
        wd.idle := wd.idle.Stop();
        idleWd := idleWd - {id};
      }
    }

    method PoolState() returns (cnt: nat, down: bool)
      ensures cnt == |idleWd.Keys| && down == shutdown
    {
      cnt, down := |idleWd|, shutdown;
      MapSize(idleWd);
    }

    /** The part of `checkin` before pushIdle: one look at the pool, then one at the clock. */
    method DecideCheckin(wd: PooledBrowser, now: int) returns (verdict: Verdict)
      ensures verdict.Reject? <==> shutdown || |idleWd.Keys| >= cfg.maxIdle
      ensures verdict.Recycle? <==> !(shutdown || |idleWd.Keys| >= cfg.maxIdle) && now - wd.tm > cfg.maxAge
    {
      var cnt, down := PoolState();
      if down || cnt >= cfg.maxIdle {
        return Reject;
      }
      if now - wd.tm > cfg.maxAge {
        return Recycle;
      }
      return Keep;
    }

    /** Files the browser with a new timer, due by the idle timeout and by the browser's maximal age. */
    method PushIdle(wd: PooledBrowser, now: int)
      requires Valid()
      modifies this`idleWd, wd`idle
      ensures Valid()
      ensures idleWd == old(idleWd)[wd.id := wd]
      ensures wd.idle == Armed(Min(now + cfg.idleTimeout, wd.tm + cfg.maxAge))
    {
      var expireTime := wd.tm + cfg.maxAge;
      var timeout := expireTime - now;
      if timeout > cfg.idleTimeout {
        timeout := cfg.idleTimeout;
      }
      wd.idle := Armed(now + timeout);
      idleWd := idleWd[wd.id := wd];
    }

    /** The timer's callback: closes the browser exactly when it is (still, or again) in the pool. */
    method EvictIdle(wd: PooledBrowser) returns (close: bool)
      requires Valid()
      modifies this`idleWd
      ensures Valid()
      ensures close <==> wd.id in old(idleWd)
      ensures idleWd == old(idleWd) - {wd.id}
    {
      if wd.id in idleWd {
        idleWd := idleWd - {wd.id};
        close := true;
      } else {
        close := false;
        assert idleWd - {wd.id} == idleWd;
      }
    }

    /** Empties the pool: every idle browser gets one closer and its timer is stopped. */
    method Shutdown() returns (closing: map<Browser, PooledBrowser>)
      requires Valid()
      modifies this, idleWd.Values
      ensures Valid() && shutdown && idleWd == map[]
      ensures closing == old(idleWd)
      ensures forall id :: id in closing ==> closing[id].idle == old(closing[id].idle).Stop()
    {
      shutdown := true;
      closing := map[];
      ghost var entries := idleWd;
      while idleWd.Keys != {}
        modifies this`idleWd, entries.Values
        invariant closing.Keys + idleWd.Keys == entries.Keys && closing.Keys !! idleWd.Keys
        invariant forall id :: id in idleWd ==> idleWd[id] == entries[id] && entries[id].idle == old(entries[id].idle)
        invariant forall id :: id in closing ==> closing[id] == entries[id]
        invariant forall id :: id in closing ==> entries[id].idle == old(entries[id].idle).Stop()
        decreases idleWd.Keys
      {
        var id :| id in idleWd.Keys;
        var wd := idleWd[id];
        wd.idle := wd.idle.Stop();
        closing := closing[id := wd];
        idleWd := idleWd - {id};
      }
    }
  }

  lemma MapSize<K, V>(m: map<K, V>)
    ensures |m| == |m.Keys|
  {
  }
}
