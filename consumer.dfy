/** The loop of `consume_and_prioritize_odds`: each record read from the log
    is pushed onto the head of the priority list when it is a Corner Case,
    and every record gets one upsert attempt into the durable table. */
module Consumer {
  import opened OddValues

  /** The category that sends a record to the priority list. */
  const HighPriorityLabel: string := "Corner Case"

  /** A row of the `odds` table beside its key `odd_id`. */
  datatype Row = Row(category: Val, rawData: Blob)

  /** How a run ends: without a table session it returns before reading;
      otherwise it reads every message, or it stops at the first message that
      is not a dict (`get` raises there, outside any handler). */
  datatype ConsumeResult = NoSession | Completed(messageCount: nat) | Crashed(at: nat)

  /** `odd_data.get("ODD_ID")` on a dict message (the loop never reaches
      this for any other message; `Null` stands in for them). */
  function OddId(m: Val): Val {
    if m.Map? then Get(m.entries, "ODD_ID") else Plain(Null)
  }

  /** `odd_data.get("Category")` on a dict message, as for OddId. */
  function Category(m: Val): Val {
    if m.Map? then Get(m.entries, "Category") else Plain(Null)
  }

  /** Python's `category == "Corner Case"`: only a str (or a numpy str,
      which compares by value) equal to the label passes. */
  predicate IsLabel(category: Val) {
    category == Plain(Str(HighPriorityLabel)) || category == Wrapped(Str(HighPriorityLabel))
  }

  /** The routing test on a record. */
  predicate IsCornerCase(m: Val) {
    m.Map? && IsLabel(Category(m))
  }

  /** All messages are dicts, so `get` succeeds on each. */
  predicate AllDicts(ms: seq<Val>) {
    forall i :: 0 <= i < |ms| ==> ms[i].Map?
  }

  /** The length of the prefix the loop gets through: up to the first message
      that is not a dict. */
  function DictPrefix(ms: seq<Val>): (n: nat)
    ensures n <= |ms|
    ensures AllDicts(ms[..n])
    ensures n < |ms| ==> !ms[n].Map?
  {
    if ms == [] || !ms[0].Map? then 0
    else
      var n := 1 + DictPrefix(ms[1..]);
      assert forall i :: 1 <= i < n ==> ms[..n][i] == ms[1..][..n - 1][i - 1];
      n
  }

  /** The records a run pushes onto the priority list, newest first. */
  function Pushed(ms: seq<Val>): seq<Val> {
    if ms == [] then []
    else
      var last := ms[|ms| - 1];
      (if IsCornerCase(last) then [last] else []) + Pushed(ms[..|ms| - 1])
  }

  /** `json.dumps` applied to each record. */
  function Serialised(xs: seq<Val>, dumps: Val -> Blob): seq<Blob> {
    if xs == [] then [] else [dumps(xs[0])] + Serialised(xs[1..], dumps)
  }

  /** One insert attempt: an upsert by `odd_id` when it succeeds, nothing when
      it fails. */
  function Upsert(t: map<Val, Row>, m: Val, ok: bool, dumps: Val -> Blob): map<Val, Row> {
    if ok then t[OddId(m) := Row(Category(m), dumps(m))] else t
  }

  /** The table after the insert attempts for `ms`, in order; `oks[i]` says
      whether the attempt for `ms[i]` succeeded. */
  function Commit(t: map<Val, Row>, ms: seq<Val>, oks: seq<bool>, dumps: Val -> Blob): map<Val, Row>
    requires |oks| == |ms|
  {
    if ms == [] then t
    else
      var n := |ms| - 1;
      Upsert(Commit(t, ms[..n], oks[..n], dumps), ms[n], oks[n], dumps)
  }

  /** The index of the last successful insert with key `k`, if any. */
  function LastWrite(ms: seq<Val>, oks: seq<bool>, k: Val): (r: Option<nat>)
    requires |oks| == |ms|
    ensures r.Some? ==> r.value < |ms| && oks[r.value] && OddId(ms[r.value]) == k &&
                        forall j :: r.value < j < |ms| ==> !(oks[j] && OddId(ms[j]) == k)
    ensures r.None? ==> forall j :: 0 <= j < |ms| ==> !(oks[j] && OddId(ms[j]) == k)
  {
    if ms == [] then None
    else
      var n := |ms| - 1;
      if oks[n] && OddId(ms[n]) == k then Some(n)
      else
        LastWrite(ms[..n], oks[..n], k)
  }

  /** The two stores the consumer writes: the Redis list `high_priority_odds`
      and the Cassandra table `odds`, keyed by `odd_id`. */
  class OddStores {
    var priorityList: seq<Blob>
    var table: map<Val, Row>

    constructor ()
      ensures priorityList == [] && table == map[]
    {
      priorityList := [];
      table := map[];
    }

    /** The body of the consumer loop for one dict message: push it when it
        is a Corner Case, then attempt the insert; a failed insert is
        swallowed and leaves the push in place. */
    method HandleMessage(oddData: Val, insertOk: bool, dumps: Val -> Blob)
      requires oddData.Map?
      modifies this
      ensures priorityList == (if IsCornerCase(oddData) then [dumps(oddData)] else []) + old(priorityList)
      ensures table == Upsert(old(table), oddData, insertOk, dumps)
    {
      var oddId := Get(oddData.entries, "ODD_ID");
      var category := Get(oddData.entries, "Category");
      if IsLabel(category) {
        priorityList := [dumps(oddData)] + priorityList;
      }
      if insertOk {
        table := table[oddId := Row(category, dumps(oddData))];
      }
    }

    /** `consume_and_prioritize_odds` over the finite stream `messages`.
        `session` says whether a table session was obtained, `insertOk[i]`
        whether the insert for `messages[i]` succeeds, and `dumps` is
        `json.dumps`. */
    method ConsumeAndPrioritizeOdds(session: bool, messages: seq<Val>, insertOk: seq<bool>,
                                    dumps: Val -> Blob) returns (result: ConsumeResult)
      requires |insertOk| == |messages|
      modifies this
      ensures !session ==> result == NoSession && priorityList == old(priorityList) && table == old(table)
      ensures session ==>
        var n := DictPrefix(messages);
        && result == (if n == |messages| then Completed(|messages|) else Crashed(n))
        && priorityList == Serialised(Pushed(messages[..n]), dumps) + old(priorityList)
        && table == Commit(old(table), messages[..n], insertOk[..n], dumps)
    {
      if !session {
        return NoSession;
      }
      var messageCount := 0;
      var i := 0;
      while i < |messages|
        invariant 0 <= i <= |messages|
        invariant messageCount == i
        invariant AllDicts(messages[..i])
        invariant priorityList == Serialised(Pushed(messages[..i]), dumps) + old(priorityList)
        invariant table == Commit(old(table), messages[..i], insertOk[..i], dumps)
      {
        messageCount := messageCount + 1;
        var oddData := messages[i];
        if !oddData.Map? {
          DictPrefixStops(messages, i);
          result := Crashed(i);
          return;
        }
        StepDefinitions(messages, insertOk, i, old(table), dumps, old(priorityList));
        HandleMessage(oddData, insertOk[i], dumps);
        i := i + 1;
      }
      assert messages[..i] == messages && insertOk[..i] == insertOk;
      DictPrefixAllDicts(messages);
      result := Completed(messageCount);
    }
  }

  /** How the specification functions grow by one message. */
  lemma StepDefinitions(ms: seq<Val>, oks: seq<bool>, i: nat, t: map<Val, Row>, dumps: Val -> Blob,
                        rest: seq<Blob>)
    requires i < |ms| && |oks| == |ms| && AllDicts(ms[..i]) && ms[i].Map?
    ensures AllDicts(ms[..i + 1])
    ensures Serialised(Pushed(ms[..i + 1]), dumps) + rest ==
            (if IsCornerCase(ms[i]) then [dumps(ms[i])] else []) + (Serialised(Pushed(ms[..i]), dumps) + rest)
    ensures Commit(t, ms[..i + 1], oks[..i + 1], dumps) ==
            Upsert(Commit(t, ms[..i], oks[..i], dumps), ms[i], oks[i], dumps)
  {
    assert AllDicts(ms[..i + 1]);
    assert ms[..i + 1][..i] == ms[..i];
    assert oks[..i + 1][..i] == oks[..i];
    var p := Pushed(ms[..i]);
    if IsCornerCase(ms[i]) {
      assert Pushed(ms[..i + 1]) == [ms[i]] + p;
      assert ([ms[i]] + p)[1..] == p;
    } else {
      assert Pushed(ms[..i + 1]) == p;
    }
  }

  lemma DictPrefixStops(ms: seq<Val>, i: nat)
    requires i < |ms| && AllDicts(ms[..i]) && !ms[i].Map?
    ensures DictPrefix(ms) == i
  {
  }

  lemma DictPrefixAllDicts(ms: seq<Val>)
    requires AllDicts(ms)
    ensures DictPrefix(ms) == |ms|
  {
  }

  /** A record is pushed exactly when it is consumed and is a Corner Case. */
  lemma {:induction false} PushedIff(ms: seq<Val>, x: Val)
    ensures x in Pushed(ms) <==> x in ms && IsCornerCase(x)
  {
    if ms != [] {
      var n := |ms| - 1;
      assert ms == ms[..n] + [ms[n]];
      PushedIff(ms[..n], x);
    }
  }

  /** The list is newest-first: what a later batch pushes sits in front of
      what an earlier one pushed. */
  lemma {:induction false} PushedAppend(a: seq<Val>, b: seq<Val>)
    ensures Pushed(a + b) == Pushed(b) + Pushed(a)
  {
    if b == [] {
      assert a + b == a;
    } else {
      var n := |b| - 1;
      var front := b[..n];
      SplitLast(a, b);
      PushedSnoc(a + front, b[n]);
      PushedSnoc(front, b[n]);
      PushedAppend(a, front);
    }
  }

  /** One more message pushes at most itself, at the head. */
  lemma PushedSnoc(ms: seq<Val>, m: Val)
    ensures Pushed(ms + [m]) == (if IsCornerCase(m) then [m] else []) + Pushed(ms)
  {
    assert (ms + [m])[..|ms|] == ms;
  }

  lemma SplitLast(a: seq<Val>, b: seq<Val>)
    requires b != []
    ensures a + b == (a + b[..|b| - 1]) + [b[|b| - 1]]
    ensures b == b[..|b| - 1] + [b[|b| - 1]]
  {
  }

  /** The row for a key is written by the last successful insert with that
      key; a key nobody wrote successfully keeps its old row, or stays absent. */
  lemma {:induction false} CommitLastWrite(t: map<Val, Row>, ms: seq<Val>, oks: seq<bool>,
                                           dumps: Val -> Blob, k: Val)
    requires |oks| == |ms|
    ensures var c := Commit(t, ms, oks, dumps);
            match LastWrite(ms, oks, k)
            case Some(j) => k in c && c[k] == Row(Category(ms[j]), dumps(ms[j]))
            case None => (k in c <==> k in t) && (k in t ==> c[k] == t[k])
  {
    if ms != [] {
      var n := |ms| - 1;
      var prev := Commit(t, ms[..n], oks[..n], dumps);
      CommitLastWrite(t, ms[..n], oks[..n], dumps, k);
      if oks[n] && OddId(ms[n]) == k {
        assert Commit(t, ms, oks, dumps) == prev[k := Row(Category(ms[n]), dumps(ms[n]))];
      } else {
        assert LastWrite(ms, oks, k) == LastWrite(ms[..n], oks[..n], k);
        var c := Commit(t, ms, oks, dumps);
        assert c == Upsert(prev, ms[n], oks[n], dumps);
        assert (k in c <==> k in prev) && (k in prev ==> c[k] == prev[k]);
      }
    }
  }

  /** A failed insert changes nothing: the table is what it would be had the
      message not been inserted at all. */
  lemma {:induction false} FailedInsertIsSkipped(t: map<Val, Row>, ms: seq<Val>, oks: seq<bool>,
                                                 dumps: Val -> Blob, j: nat)
    requires |oks| == |ms|
    requires j < |ms| && !oks[j]
    ensures Commit(t, ms, oks, dumps) == Commit(t, ms[..j] + ms[j + 1..], oks[..j] + oks[j + 1..], dumps)
  {
    var n := |ms| - 1;
    var ms', oks' := ms[..j] + ms[j + 1..], oks[..j] + oks[j + 1..];
    assert ms == ms[..n] + [ms[n]] && oks == oks[..n] + [oks[n]];
    CommitSnoc(t, ms[..n], oks[..n], ms[n], oks[n], dumps);
    if j == n {
      assert ms' == ms[..n] && oks' == oks[..n];
    } else {
      var pre, preOks := ms[..n][..j] + ms[..n][j + 1..], oks[..n][..j] + oks[..n][j + 1..];
      FailedInsertIsSkipped(t, ms[..n], oks[..n], dumps, j);
      assert ms' == pre + [ms[n]] && oks' == preOks + [oks[n]];
      CommitSnoc(t, pre, preOks, ms[n], oks[n], dumps);
    }
  }

  /** Commit over one more message is one more upsert. */
  lemma CommitSnoc(t: map<Val, Row>, ms: seq<Val>, oks: seq<bool>, m: Val, ok: bool, dumps: Val -> Blob)
    requires |oks| == |ms|
    ensures Commit(t, ms + [m], oks + [ok], dumps) == Upsert(Commit(t, ms, oks, dumps), m, ok, dumps)
  {
    assert (ms + [m])[..|ms|] == ms && (oks + [ok])[..|ms|] == oks;
  }

  /** Consuming a batch again, with the same insert outcomes, leaves the
      table as one consumption left it: the insert is an upsert by key, so
      redelivered messages add no rows. */
  lemma CommitRedelivery(t: map<Val, Row>, ms: seq<Val>, oks: seq<bool>, dumps: Val -> Blob)
    requires |oks| == |ms|
    ensures var once := Commit(t, ms, oks, dumps);
            Commit(once, ms, oks, dumps) == once
  {
    var once := Commit(t, ms, oks, dumps);
    var twice := Commit(once, ms, oks, dumps);
    forall k
      ensures (k in twice <==> k in once) && (k in once ==> twice[k] == once[k])
    {
      CommitLastWrite(t, ms, oks, dumps, k);
      CommitLastWrite(once, ms, oks, dumps, k);
    }
  }

  /** A restart that re-reads the tail `ms[j..]` of a consumed batch, with
      the same insert outcomes, leaves the table as the first pass left it:
      the redelivery that at-least-once delivery produces adds no rows. */
  lemma CommitSuffixRedelivery(t: map<Val, Row>, ms: seq<Val>, oks: seq<bool>, dumps: Val -> Blob, j: nat)
    requires |oks| == |ms| && j <= |ms|
    ensures var once := Commit(t, ms, oks, dumps);
            Commit(once, ms[j..], oks[j..], dumps) == once
  {
    var once := Commit(t, ms, oks, dumps);
    var again := Commit(once, ms[j..], oks[j..], dumps);
    forall k
      ensures (k in again <==> k in once) && (k in once ==> again[k] == once[k])
    {
      CommitLastWrite(t, ms, oks, dumps, k);
      CommitLastWrite(once, ms[j..], oks[j..], dumps, k);
      LastWriteSuffix(ms, oks, j, k);
    }
  }

  /** The last successful write of a key in a tail is its last write in the
      whole batch. */
  lemma LastWriteSuffix(ms: seq<Val>, oks: seq<bool>, j: nat, k: Val)
    requires |oks| == |ms| && j <= |ms|
    ensures LastWrite(ms[j..], oks[j..], k).Some? ==>
              LastWrite(ms, oks, k) == Some(j + LastWrite(ms[j..], oks[j..], k).value)
  {
    var suffix := LastWrite(ms[j..], oks[j..], k);
    if suffix.Some? {
      var i := suffix.value;
      assert ms[j..][i] == ms[j + i] && oks[j..][i] == oks[j + i];
      assert LastWrite(ms, oks, k).Some?;
    }
  }
}
