/**
  The bounded log of recent events (clusterstate/utils/logging.go). The collector never looks at
  its past; the proofs compare what it stores with everything that was ever logged.
 */
module LogCollection {

  datatype LogLevel = Debug | Info | Warning | Error

  datatype LogItem = LogItem(log: string, level: LogLevel, timestamp: int)

  const DEFAULT_MAX_ITEMS: nat := 50
  // 15 minutes, in seconds.
  const DEFAULT_ITEM_LIFETIME: int := 900

  function LastItems(s: seq<LogItem>, n: nat): seq<LogItem> {
    if |s| > n then s[|s| - n..] else s
  }

  // Drops items from the front up to the first one newer than the threshold.
  function DropOld(s: seq<LogItem>, threshold: int): seq<LogItem> {
    if s == [] || s[0].timestamp > threshold then s else DropOld(s[1..], threshold)
  }

  ghost predicate IsSuffix(s: seq<LogItem>, items: seq<LogItem>) {
    |s| <= |items| && s == items[|items| - |s|..]
  }

  ghost predicate InOrder(s: seq<LogItem>) {
    forall i, j :: 0 <= i < j < |s| ==> s[i].timestamp <= s[j].timestamp
  }

  // `kept` is exactly those of the last n items that are newer than the threshold.
  ghost predicate KeepsRecent(kept: seq<LogItem>, items: seq<LogItem>, n: nat, threshold: int) {
    && IsSuffix(kept, items) && |kept| <= n
    && forall i :: 0 <= i < |items| && |items| - n <= i ==>
         (items[i].timestamp > threshold <==> i >= |items| - |kept|)
  }

  // ---------------------------------------------------------------- compaction

  lemma {:induction false} DropOldIsSuffix(s: seq<LogItem>, threshold: int)
    ensures IsSuffix(DropOld(s, threshold), s)
  {
    if s != [] && s[0].timestamp <= threshold {
      DropOldIsSuffix(s[1..], threshold);
    }
  }

  // What is dropped is old, and what is kept begins with an item that is not.
  lemma {:induction false} DropOldIs(s: seq<LogItem>, threshold: int) returns (k: nat)
    ensures k <= |s| && DropOld(s, threshold) == s[k..]
    ensures forall i :: 0 <= i < k ==> s[i].timestamp <= threshold
    ensures k < |s| ==> s[k].timestamp > threshold
  {
    k := 0;
    if s != [] && s[0].timestamp <= threshold {
      var later := DropOldIs(s[1..], threshold);
      k := later + 1;
      assert s[1..][later..] == s[k..];
      assert forall i :: 1 <= i < k ==> s[i] == s[1..][i - 1];
    }
  }

  lemma SuffixInOrder(s: seq<LogItem>, items: seq<LogItem>)
    requires IsSuffix(s, items) && InOrder(items)
    ensures InOrder(s)
  {
    var lost := |items| - |s|;
    forall i, j | 0 <= i < j < |s| ensures s[i].timestamp <= s[j].timestamp {
      assert s[i] == items[lost + i] && s[j] == items[lost + j];
    }
  }

  // The window that compaction looks at.
  lemma WindowIsSuffix(store: seq<LogItem>, items: seq<LogItem>, t: seq<LogItem>, n: nat)
    requires IsSuffix(store, items)
    ensures IsSuffix(LastItems(store + t, n), items + t) && |LastItems(store + t, n)| <= n
    ensures LastItems(store + t, n) == store + t || |LastItems(store + t, n)| == n
  {
  }

  // Whatever the clock says, compacting after one more item yields a bounded suffix of the history.
  lemma CompactIsSuffix(store: seq<LogItem>, items: seq<LogItem>, t: seq<LogItem>, n: nat, threshold: int)
    requires IsSuffix(store, items)
    ensures var kept := DropOld(LastItems(store + t, n), threshold);
            IsSuffix(kept, items + t) && |kept| <= n
  {
    DropOldIsSuffix(LastItems(store + t, n), threshold);
    WindowIsSuffix(store, items, t, n);
  }

  lemma {:induction false} DropKeepsNewer(s: seq<LogItem>, threshold: int)
    requires InOrder(s)
    ensures forall i :: 0 <= i < |s| ==> (s[i].timestamp > threshold <==> i >= |s| - |DropOld(s, threshold)|)
  {
    DropOldIsSuffix(s, threshold);
    if s != [] && s[0].timestamp <= threshold {
      DropKeepsNewer(s[1..], threshold);
      assert forall i :: 1 <= i < |s| ==> s[i] == s[1..][i - 1];
    }
  }

  /** Compacting what an earlier compaction left, with at most one new item, still gives exactly the
      recent history: what was lost before is too old or too far back now as well. */
  lemma CompactionKeepsRecent(items: seq<LogItem>, store: seq<LogItem>, t: seq<LogItem>, n: nat, early: int, late: int)
    requires KeepsRecent(store, items, n, early) && early <= late && InOrder(items + t)
    ensures KeepsRecent(DropOld(LastItems(store + t, n), late), items + t, n, late)
  {
    var all, window := items + t, LastItems(store + t, n);
    var lost, kept := |all| - |window|, DropOld(window, late);
    WindowIsSuffix(store, items, t, n);
    CompactIsSuffix(store, items, t, n, late);
    SuffixInOrder(window, all);
    DropKeepsNewer(window, late);
    forall i | 0 <= i < |all| && |all| - n <= i
      ensures all[i].timestamp > late <==> i >= |all| - |kept|
    {
      if i < lost {
        assert i < |items| - |store| && all[i] == items[i];
      } else {
        assert all[i] == window[i - lost];
      }
    }
  }

  // ---------------------------------------------------------------- over a whole run

  // What a store is after a run: `history` is everything logged, `lastCall` the time of the last
  // call, and `clockRan` tells that the clock never went back.
  ghost predicate Explains(history: seq<LogItem>, lastCall: int, clockRan: bool,
                           store: seq<LogItem>, maxItems: nat, itemLifetime: int) {
    && IsSuffix(store, history) && |store| <= maxItems
    && (clockRan ==> InOrder(history) && NoneAfter(history, lastCall)
                     && KeepsRecent(store, history, maxItems, lastCall - itemLifetime))
  }

  ghost predicate NoneAfter(s: seq<LogItem>, time: int) {
    forall i :: 0 <= i < |s| ==> s[i].timestamp <= time
  }

  lemma AppendInOrder(s: seq<LogItem>, t: seq<LogItem>, now: int)
    requires InOrder(s) && NoneAfter(s, now)
    requires |t| <= 1 && forall i :: 0 <= i < |t| ==> t[i].timestamp == now
    ensures InOrder(s + t) && NoneAfter(s + t, now)
  {
  }

  /** A call at time `now` that logs `t` and compacts keeps the store explained by the history. */
  lemma CallKeepsExplained(history: seq<LogItem>, lastCall: int, clockRan: bool, store: seq<LogItem>,
                           maxItems: nat, itemLifetime: int, t: seq<LogItem>, now: int)
    requires Explains(history, lastCall, clockRan, store, maxItems, itemLifetime)
    requires |t| <= 1 && forall i :: 0 <= i < |t| ==> t[i].timestamp == now
    ensures var kept := DropOld(LastItems(store + t, maxItems), now - itemLifetime);
            Explains(history + t, now, clockRan && lastCall <= now, kept, maxItems, itemLifetime)
  {
    CompactIsSuffix(store, history, t, maxItems, now - itemLifetime);
    if clockRan && lastCall <= now {
      AppendInOrder(history, t, now);
      CompactionKeepsRecent(history, store, t, maxItems, lastCall - itemLifetime, now - itemLifetime);
    }
  }

  // ---------------------------------------------------------------- the collector

  class LogCollector {
    const maxItems: nat
    const itemLifetime: int
    var store: seq<LogItem>
    ghost var history: seq<LogItem>
    ghost var lastCall: int
    ghost var clockRan: bool

    ghost predicate Valid()
      reads this
    {
      Explains(history, lastCall, clockRan, store, maxItems, itemLifetime)
    }

    constructor (ghost now: int)
      ensures Valid() && history == [] && lastCall == now && clockRan
      ensures maxItems == 50 && itemLifetime == 15 * 60
    {
      maxItems, itemLifetime := DEFAULT_MAX_ITEMS, DEFAULT_ITEM_LIFETIME;
      store, history, lastCall, clockRan := [], [], now, true;
    }

    method Compact(now: int)
      modifies this`store
      ensures store == DropOld(LastItems(old(store), maxItems), now - itemLifetime)
    {
      var firstIndex := 0;
      if |store| > maxItems {
        firstIndex := |store| - maxItems;
      }
      var threshold := now - itemLifetime;
      while firstIndex < |store|
        invariant firstIndex <= |store|
        invariant DropOld(store[firstIndex..], threshold) == DropOld(LastItems(store, maxItems), threshold)
      {
        if store[firstIndex].timestamp > threshold {
          break;
        }
        assert store[firstIndex..][1..] == store[firstIndex + 1..];
        firstIndex := firstIndex + 1;
      }
      if firstIndex > 0 {
        store := store[firstIndex..];
      }
    }

    method Log(msg: string, level: LogLevel, now: int)
      requires Valid()
      modifies this
      ensures Valid() && history == old(history) + [LogItem(msg, level, now)]
      ensures lastCall == now && clockRan == (old(clockRan) && old(lastCall) <= now)
    {
      var item := LogItem(msg, level, now);
      CallKeepsExplained(history, lastCall, clockRan, store, maxItems, itemLifetime, [item], now);
      store := store + [item];
      Compact(now);
      history, clockRan, lastCall := history + [item], clockRan && lastCall <= now, now;
    }

    method GetLogs(now: int) returns (result: seq<LogItem>)
      requires Valid()
      modifies this
      ensures Valid() && history == old(history) && result == store
      ensures lastCall == now && clockRan == (old(clockRan) && old(lastCall) <= now)
      ensures clockRan ==> KeepsRecent(result, history, maxItems, now - itemLifetime)
    {
      CallKeepsExplained(history, lastCall, clockRan, store, maxItems, itemLifetime, [], now);
      assert store + [] == store && history + [] == history;
      Compact(now);
      result := store;
      clockRan, lastCall := clockRan && lastCall <= now, now;
    }
  }
}
