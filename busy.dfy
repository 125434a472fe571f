/**
 * Busy intervals as stored by the `/busy` command (bot.js:296-429): the
 * record, the filters the subcommands apply to `store.busy`, and the order
 * in which `/busy list` shows them.
 */
module Busy {
  import opened Outcomes
  import opened JsBuiltins
  import opened TimeUtil
  import opened Seqs

  /** A roster party's key (a key of `USER_KEYS`). */
  type UserKey = string

  /** A stored busy interval. Times are kept as the text the party typed. */
  datatype BusyRecord = BusyRecord(
    id: string,
    userKey: UserKey,
    date: string,
    start: string,
    end: string,
    reason: Option<string>)

  /** The check `/busy add` makes: start comes strictly before end, as minute codes. */
  predicate HasValidRange(b: BusyRecord) {
    Less(NormalizeTimeToMin(b.start), NormalizeTimeToMin(b.end))
  }

  /** `reason.trim() || null` */
  function ReasonOf(reason: string): Option<string> {
    var t := Trim(reason);
    if t == [] then None else Some(t)
  }

  /** No two records share an id. */
  predicate UniqueIds(busy: seq<BusyRecord>) {
    forall i, j :: 0 <= i < j < |busy| ==> busy[i].id != busy[j].id
  }

  // ----- the filters of bot.js -----

  /** `busy.filter((b) => b.date === date)` */
  function OnDate(busy: seq<BusyRecord>, date: string): (r: seq<BusyRecord>)
    ensures forall b :: b in r <==> b in busy && b.date == date
  {
    Filter(busy, (b: BusyRecord) => b.date == date)
  }

  /** `busy.filter((b) => b.userKey === key)` */
  function OwnedBy(busy: seq<BusyRecord>, key: UserKey): (r: seq<BusyRecord>)
    ensures forall b :: b in r <==> b in busy && b.userKey == key
  {
    Filter(busy, (b: BusyRecord) => b.userKey == key)
  }

  /** `busy.filter((b) => b.id !== id)`: what `/busy remove` keeps. */
  function Without(busy: seq<BusyRecord>, id: string): (r: seq<BusyRecord>)
    ensures forall b :: b in r <==> b in busy && b.id != id
  {
    Filter(busy, (b: BusyRecord) => b.id != id)
  }

  /** `busy.filter((b) => b.userKey !== key)`: what `/busy clear` keeps. */
  function NotOwnedBy(busy: seq<BusyRecord>, key: UserKey): (r: seq<BusyRecord>)
    ensures forall b :: b in r <==> b in busy && b.userKey != key
  {
    Filter(busy, (b: BusyRecord) => b.userKey != key)
  }

  /** `busy.find((b) => b.id === id)`: the first record with that id, or undefined. */
  function FindById(busy: seq<BusyRecord>, id: string): (r: Option<BusyRecord>)
    ensures r.None? <==> forall b :: b in busy ==> b.id != id
    ensures r.Some? ==> r.value in busy && r.value.id == id
  {
    if busy == [] then None
    else if busy[0].id == id then Some(busy[0])
    else FindById(busy[1..], id)
  }

  // ----- what remove and clear do to the store -----

  /** Ids are unique in `[x] + t` exactly when they are in `t` and no record of `t` has `x`'s id. */
  lemma UniqueIdsCons(x: BusyRecord, t: seq<BusyRecord>)
    ensures UniqueIds([x] + t) <==> UniqueIds(t) && forall y :: y in t ==> y.id != x.id
  {
    var s := [x] + t;
    if UniqueIds(s) {
      forall i, j | 0 <= i < j < |t| ensures t[i].id != t[j].id {
        assert t[i] == s[i + 1] && t[j] == s[j + 1];
      }
      forall y | y in t ensures y.id != x.id {
        var k :| 0 <= k < |t| && t[k] == y;
        assert s[0] == x && s[k + 1] == y;
        assert s[0].id != s[k + 1].id;
      }
    }
    if UniqueIds(t) && forall y :: y in t ==> y.id != x.id {
      forall i, j | 0 <= i < j < |s| ensures s[i].id != s[j].id {
        assert s[j] == t[j - 1];
        if i > 0 {
          assert s[i] == t[i - 1];
        } else {
          assert s[j] in t;
        }
      }
    }
  }

  /** Dropping records never makes two ids equal. */
  lemma {:induction false} FilterKeepsUniqueIds(busy: seq<BusyRecord>, p: BusyRecord -> bool)
    requires UniqueIds(busy)
    ensures UniqueIds(Filter(busy, p))
  {
    if busy != [] {
      var tail := busy[1..];
      assert busy == [busy[0]] + tail;
      UniqueIdsCons(busy[0], tail);
      FilterKeepsUniqueIds(tail, p);
      var rest := Filter(tail, p);
      if p(busy[0]) {
        UniqueIdsCons(busy[0], rest);
        assert Filter(busy, p) == [busy[0]] + rest;
      } else {
        assert Filter(busy, p) == rest;
      }
    }
  }

  /**
   * With unique ids, removing a present id deletes exactly the one record
   * `find` returns: one fewer record and the same multiset otherwise.
   */
  lemma {:induction false} RemoveDeletesOne(busy: seq<BusyRecord>, id: string)
    requires UniqueIds(busy) && FindById(busy, id).Some?
    ensures multiset(Without(busy, id)) == multiset(busy) - multiset{FindById(busy, id).value}
    ensures |Without(busy, id)| == |busy| - 1
  {
    var tail := busy[1..];
    assert busy == [busy[0]] + tail;
    if busy[0].id == id {
      assert FindById(busy, id) == Some(busy[0]);
      assert Without(busy, id) == tail by {
        UniqueIdsCons(busy[0], tail);
        FilterAll(tail, (b: BusyRecord) => b.id != id);
      }
    } else {
      assert FindById(busy, id) == FindById(tail, id);
      assert UniqueIds(tail) by {
        UniqueIdsCons(busy[0], tail);
      }
      RemoveDeletesOne(tail, id);
      assert Without(busy, id) == [busy[0]] + Without(tail, id);
      assert busy[0] != FindById(busy, id).value;
    }
  }

  /**
   * `clear` keeps the other parties' records in their stored order: it
   * distributes over any split of the store.
   */
  lemma ClearKeepsOrder(a: seq<BusyRecord>, b: seq<BusyRecord>, key: UserKey)
    ensures NotOwnedBy(a + b, key) == NotOwnedBy(a, key) + NotOwnedBy(b, key)
  {
    FilterConcat(a, b, (x: BusyRecord) => x.userKey != key);
  }

  /** `clear` removes exactly the caller's records, each as often as it was stored. */
  lemma {:induction false} ClearPartition(busy: seq<BusyRecord>, key: UserKey)
    ensures multiset(NotOwnedBy(busy, key)) + multiset(OwnedBy(busy, key)) == multiset(busy)
  {
    if busy != [] {
      ClearPartition(busy[1..], key);
      assert busy == [busy[0]] + busy[1..];
    }
  }

  // ----- /busy list -----

  /** `targetKey = user || callerKey`: an empty key is falsy and counts as absent. */
  function TargetKey(user: Option<UserKey>, caller: Option<UserKey>): Option<UserKey> {
    if user.Some? && user.value != "" then user
    else if caller.Some? && caller.value != "" then caller
    else None
  }

  /** The records `/busy list` shows before sorting: the target's, or all when there is no target. */
  function Selected(busy: seq<BusyRecord>, target: Option<UserKey>): seq<BusyRecord> {
    if target.Some? then OwnedBy(busy, target.value) else busy
  }

  /** The sort key `a.date + a.start`. */
  function SortKey(b: BusyRecord): string {
    b.date + b.start
  }

  predicate SortedByKey(s: seq<BusyRecord>) {
    forall i, j :: 0 <= i < j < |s| ==> StrLe(SortKey(s[i]), SortKey(s[j]))
  }

  /** Puts `x` before the first element whose key is not smaller than its own. */
  function Insert(x: BusyRecord, s: seq<BusyRecord>): seq<BusyRecord> {
    if s == [] then [x]
    else if StrLe(SortKey(x), SortKey(s[0])) then [x] + s
    else [s[0]] + Insert(x, s[1..])
  }

  /** A stable sort on `SortKey`, as `Array.prototype.sort` is. */
  function SortByKey(s: seq<BusyRecord>): seq<BusyRecord> {
    if s == [] then [] else Insert(s[0], SortByKey(s[1..]))
  }

  /** Insertion adds exactly the one record. */
  lemma {:induction false} InsertPerm(x: BusyRecord, s: seq<BusyRecord>)
    ensures multiset(Insert(x, s)) == multiset(s) + multiset{x}
  {
    if s != [] && !StrLe(SortKey(x), SortKey(s[0])) {
      InsertPerm(x, s[1..]);
      assert s == [s[0]] + s[1..];
    }
  }

  /** The tail of a sorted list is sorted, and its head comes before all of it. */
  lemma TailSorted(s: seq<BusyRecord>)
    requires s != [] && SortedByKey(s)
    ensures SortedByKey(s[1..])
    ensures forall y :: y in s[1..] ==> StrLe(SortKey(s[0]), SortKey(y))
  {
    var tail := s[1..];
    forall i, j | 0 <= i < j < |tail| ensures StrLe(SortKey(tail[i]), SortKey(tail[j])) {
      assert tail[i] == s[i + 1] && tail[j] == s[j + 1];
    }
  }

  /** A record that comes before every record of a sorted list can head it. */
  lemma ConsSorted(h: BusyRecord, t: seq<BusyRecord>)
    requires SortedByKey(t)
    requires forall y :: y in t ==> StrLe(SortKey(h), SortKey(y))
    ensures SortedByKey([h] + t)
  {
    var r := [h] + t;
    forall i, j | 0 <= i < j < |r| ensures StrLe(SortKey(r[i]), SortKey(r[j])) {
      if i == 0 {
        assert r[j] in t;
      } else {
        assert r[i] == t[i - 1] && r[j] == t[j - 1];
      }
    }
  }

  lemma {:induction false} InsertSorted(x: BusyRecord, s: seq<BusyRecord>)
    requires SortedByKey(s)
    ensures SortedByKey(Insert(x, s))
    ensures multiset(Insert(x, s)) == multiset(s) + multiset{x}
  {
    InsertPerm(x, s);
    if s == [] {
    } else if StrLe(SortKey(x), SortKey(s[0])) {
      TailSorted(s);
      forall y | y in s ensures StrLe(SortKey(x), SortKey(y)) {
        if y != s[0] {
          StrLeTransitive(SortKey(x), SortKey(s[0]), SortKey(y));
        }
      }
      ConsSorted(x, s);
    } else {
      StrLeTotal(SortKey(x), SortKey(s[0]));
      var tail := s[1..];
      TailSorted(s);
      InsertSorted(x, tail);
      var t := Insert(x, tail);
      forall y | y in t ensures StrLe(SortKey(s[0]), SortKey(y)) {
        assert y in multiset(t);
        if y != x {
          assert y in multiset(tail);
        }
      }
      ConsSorted(s[0], t);
    }
  }

  lemma {:induction false} SortByKeySorted(s: seq<BusyRecord>)
    ensures SortedByKey(SortByKey(s))
    ensures multiset(SortByKey(s)) == multiset(s)
  {
    if s != [] {
      SortByKeySorted(s[1..]);
      InsertSorted(s[0], SortByKey(s[1..]));
      assert s == [s[0]] + s[1..];
    }
  }

  /**
   * `/busy list` on a snapshot of the store: the target party's records (all
   * records when there is no target), ordered by date then start time.
   */
  function ListBusy(busy: seq<BusyRecord>, user: Option<UserKey>, caller: Option<UserKey>)
    : (r: seq<BusyRecord>)
    ensures SortedByKey(r)
    ensures multiset(r) == multiset(Selected(busy, TargetKey(user, caller)))
  {
    var selected := Selected(busy, TargetKey(user, caller));
    SortByKeySorted(selected);
    SortByKey(selected)
  }

  /** The records whose sort key is `k`, in order. */
  function KeyFilter(s: seq<BusyRecord>, k: string): seq<BusyRecord> {
    Filter(s, (b: BusyRecord) => SortKey(b) == k)
  }

  lemma {:induction false} InsertKeyFilter(x: BusyRecord, s: seq<BusyRecord>, k: string)
    ensures KeyFilter(Insert(x, s), k) == (if SortKey(x) == k then [x] else []) + KeyFilter(s, k)
  {
    if s == [] {
      assert Insert(x, s)[1..] == [];
    } else if StrLe(SortKey(x), SortKey(s[0])) {
      assert Insert(x, s)[1..] == s;
    } else {
      InsertKeyFilter(x, s[1..], k);
      assert Insert(x, s)[1..] == Insert(x, s[1..]);
      if SortKey(x) == k {
        StrLeReflexive(k);
      }
    }
  }

  /** Records with equal sort keys keep their relative store order (the sort is stable). */
  lemma {:induction false} SortStable(s: seq<BusyRecord>, k: string)
    ensures KeyFilter(SortByKey(s), k) == KeyFilter(s, k)
  {
    if s != [] {
      InsertKeyFilter(s[0], SortByKey(s[1..]), k);
      SortStable(s[1..], k);
    }
  }

  /** `/busy list` shows records with the same date and start in the order they were added. */
  lemma ListStable(busy: seq<BusyRecord>, user: Option<UserKey>, caller: Option<UserKey>, k: string)
    ensures KeyFilter(ListBusy(busy, user, caller), k)
            == KeyFilter(Selected(busy, TargetKey(user, caller)), k)
  {
    SortStable(Selected(busy, TargetKey(user, caller)), k);
  }
}
