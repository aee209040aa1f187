/**
 * The site script's interaction log (js/main.js, `App.logInteraction`): a
 * rolling record of the last 50 interactions kept in `localStorage` under
 * `app_interactions`.  `Date.now()` is a parameter, and the JSON text in
 * storage is modelled by what it parses to.
 */
module SiteApp {
  import opened Optional

  const LOG_KEY: string := "app_interactions"
  const LOG_LIMIT: nat := 50

  /** One `{action, data, timestamp}` record; `data` is kept as its JSON text. */
  datatype Interaction = Interaction(action: string, data: string, timestamp: int)

  /**
   * The `app_interactions` item: absent, JSON text that parses to an array of
   * records, or text that does not (so `JSON.parse` or `push` throws).
   */
  datatype Stored = Missing | Parsed(entries: seq<Interaction>) | Malformed(text: string)

  /** The last `n` elements of `s` (all of them when there are fewer). */
  function Last<T>(s: seq<T>, n: nat): (r: seq<T>)
    ensures |r| == if |s| < n then |s| else n
    ensures r == s[|s| - |r|..]
  {
    if |s| > n then s[|s| - n..] else s
  }

  /** `log.push(entry)` followed by `log.splice(0, log.length - 50)` when the log is too long. */
  function Appended(log: seq<Interaction>, entry: Interaction): seq<Interaction> {
    Last(log + [entry], LOG_LIMIT)
  }

  /** At most 50 entries remain, the new one last. */
  lemma AppendedBound(log: seq<Interaction>, entry: Interaction)
    ensures 1 <= |Appended(log, entry)| <= LOG_LIMIT
    ensures Appended(log, entry)[|Appended(log, entry)| - 1] == entry
  {
  }

  /** Taking the last `n` of the last `n` with one more element behind is taking the last `n` of all. */
  lemma LastSnoc<T>(s: seq<T>, x: T, n: nat)
    requires n > 0
    ensures Last(Last(s, n) + [x], n) == Last(s + [x], n)
  {
    var t := Last(s, n);
    if |s| > n {
      assert t + [x] == (s + [x])[|s| - n..];
      assert (t + [x])[1..] == (s + [x])[|s| + 1 - n..];
    }
  }

  /** The log after recording `entries` one call at a time, from `log`. */
  function LogAll(log: seq<Interaction>, entries: seq<Interaction>): seq<Interaction>
    decreases |entries|
  {
    if entries == [] then log
    else Appended(LogAll(log, entries[..|entries| - 1]), entries[|entries| - 1])
  }

  /**
   * However many calls are made, the stored log is the most recent 50 of the
   * original entries followed by the new ones, in their order.
   */
  lemma {:induction false} LogAllKeepsLatest(log: seq<Interaction>, entries: seq<Interaction>)
    requires entries != []
    ensures LogAll(log, entries) == Last(log + entries, LOG_LIMIT)
    decreases |entries|
  {
    var init := entries[..|entries| - 1];
    var x := entries[|entries| - 1];
    assert log + entries == (log + init) + [x];
    if init == [] {
      assert log + init == log;
    } else {
      LogAllKeepsLatest(log, init);
      LastSnoc(log + init, x, LOG_LIMIT);
    }
  }

  /** The page's `localStorage`, as far as the log is concerned. */
  class Site {
    var storage: Stored

    constructor(initial: Stored)
      ensures storage == initial
    {
      storage := initial;
    }

    /**
     * `logInteraction(action, data)`: `hasStorage` is whether
     * `window.localStorage` exists and `writeFails` whether `setItem` throws.
     * Every failure is swallowed and leaves the item as it was.
     */
    method LogInteraction(action: string, data: string, now: int, hasStorage: bool, writeFails: bool)
      modifies this
      ensures !hasStorage || old(storage).Malformed? || writeFails ==> storage == old(storage)
      ensures hasStorage && old(storage).Missing? && !writeFails ==>
        storage == Parsed([Interaction(action, data, now)])
      ensures hasStorage && old(storage).Parsed? && !writeFails ==>
        storage == Parsed(Appended(old(storage).entries, Interaction(action, data, now)))
    {
      if !hasStorage {
        return;
      }
      var log: seq<Interaction>;
      match storage {
        case Malformed(_) => return;
        case Missing => log := [];
        case Parsed(entries) => log := entries;
      }
      log := log + [Interaction(action, data, now)];
      if |log| > LOG_LIMIT {
        log := log[|log| - LOG_LIMIT..];
      }
      if writeFails {
        return;
      }
      storage := Parsed(log);
    }
  }
}
