/**
 Go's sync.RWMutex as a value. A writer first announces itself; from then on newly arriving readers
 are parked, so the writer waits only for the readers already inside. Its Unlock lets the parked in.
 */
module RWMutex {
  import opened Prelude

  datatype RW = RW(writer: Option<nat>, acquired: bool, readers: set<nat>, parked: set<nat>)

  const Unlocked := RW(None, false, {}, {})

  ghost predicate WellFormed(l: RW) {
    && (l.acquired ==> l.writer.Some? && l.readers == {})
    && (l.writer.None? ==> l.parked == {})
    && l.readers !! l.parked
    && (l.writer.Some? ==> l.writer.value !in l.readers && l.writer.value !in l.parked)
  }

  ghost predicate Uninvolved(l: RW, t: nat) {
    l.writer != Some(t) && t !in l.readers && t !in l.parked
  }

  function RLock(l: RW, t: nat): RW {
    if l.writer.None? then l.(readers := l.readers + {t}) else l.(parked := l.parked + {t})
  }

  function RUnlock(l: RW, t: nat): RW {
    l.(readers := l.readers - {t})
  }

  predicate CanAnnounce(l: RW) {
    l.writer.None?
  }

  function Announce(l: RW, t: nat): RW {
    l.(writer := Some(t))
  }

  predicate CanAcquire(l: RW, t: nat) {
    l.writer == Some(t) && !l.acquired && l.readers == {}
  }

  function Acquire(l: RW): RW {
    l.(acquired := true)
  }

  function Unlock(l: RW): RW {
    RW(None, false, l.readers + l.parked, {})
  }
}
