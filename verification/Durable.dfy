/**
 A file that is only ever replaced by `os.replace` of a fully written and synced temporary file.

 A reader sees `seen`. Until the directory is synced, a power loss may bring back any version that
 was visible since the last sync; `maybe` holds those versions. Killing a process changes neither.
 */
module Durable {
  datatype Disk<T(==)> = Disk(seen: T, maybe: set<T>)
  {
    predicate Consistent() {
      seen in maybe
    }

    predicate Synced() {
      maybe == {seen}
    }

    function Replace(value: T): Disk<T> {
      Disk(value, maybe + {value})
    }

    function Sync(): Disk<T> {
      Disk(seen, {seen})
    }

    function Reveal(value: T): Disk<T> {
      Disk(value, {value})
    }
  }

  function Stored<T(==)>(value: T): Disk<T> {
    Disk(value, {value})
  }
}
