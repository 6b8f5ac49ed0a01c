/**
  What has become of every message the log-shipping thread received, by arrival number:
  the order in which messages are written and queued, and which are gone.
 */
module FluentdLedgers {
  import opened FluentdScripts

  /** `log` holds the written messages themselves, in the order they were written. */
  datatype Ledger = Ledger(received: seq<Message>, written: seq<nat>, queued: seq<nat>, log: seq<Message>)

  ghost predicate Increasing(s: seq<nat>) {
    forall i, j :: 0 <= i < j < |s| ==> s[i] < s[j]
  }

  ghost predicate Below(s: seq<nat>, n: nat) {
    forall i :: 0 <= i < |s| ==> s[i] < n
  }

  /** Written messages followed by queued ones are in order of arrival, each at most once. */
  ghost predicate Sound(l: Ledger) {
    && Increasing(l.written + l.queued)
    && Below(l.written + l.queued, |l.received|)
    && Below(l.written, |l.received|)
    && l.log == Pick(l.received, l.written)
  }

  function Pick(received: seq<Message>, at: seq<nat>): (ms: seq<Message>)
    requires Below(at, |received|)
    ensures |ms| == |at|
    ensures forall i :: 0 <= i < |at| ==> ms[i] == received[at[i]]
  {
    seq(|at|, i requires 0 <= i < |at| => received[at[i]])
  }

  /** What was received and is neither written nor queued has been dropped. */
  ghost function Dropped(l: Ledger): (lost: set<nat>) {
    Missing(l.written + l.queued, |l.received|)
  }

  ghost function Missing(s: seq<nat>, n: nat): (r: set<nat>) {
    set i | 0 <= i < n && i !in s
  }

  lemma {:induction false} LengthBound(s: seq<nat>, n: nat)
    requires Increasing(s) && Below(s, n)
    ensures |s| <= n
    decreases |s|
  {
    if s != [] {
      LengthBound(s[..|s| - 1], s[|s| - 1]);
    }
  }

  lemma {:induction false} MissingCount(s: seq<nat>, n: nat)
    requires Increasing(s) && Below(s, n)
    ensures |Missing(s, n)| == n - |s|
    decreases n
  {
    if n == 0 {
      LengthBound(s, 0);
      assert Missing(s, n) == {};
    } else if s != [] && s[|s| - 1] == n - 1 {
      var head := s[..|s| - 1];
      MissingCount(head, n - 1);
      assert s == head + [n - 1];
      assert Missing(s, n) == Missing(head, n - 1);
    } else {
      MissingCount(s, n - 1);
      assert n - 1 !in s;
      assert Missing(s, n) == Missing(s, n - 1) + {n - 1};
    }
  }

  /** Every received message is written, queued or dropped, and only one of these. */
  lemma Partition(l: Ledger)
    requires Sound(l)
    ensures |l.received| == |l.written| + |l.queued| + |Dropped(l)|
    ensures forall i :: 0 <= i < |l.received| ==> i in l.written || i in l.queued || i in Dropped(l)
    ensures forall i :: i in l.written ==> i !in l.queued && i !in Dropped(l)
    ensures forall i :: i in l.queued ==> i !in Dropped(l)
  {
    MissingCount(l.written + l.queued, |l.received|);
    SoundSplit(l);
  }

  ghost function Arrive(l: Ledger, m: Message): (r: Ledger) {
    l.(received := l.received + [m], queued := l.queued + [|l.received|])
  }

  ghost function WriteFront(l: Ledger): (r: Ledger)
    requires l.queued != [] && l.queued[0] < |l.received|
  {
    l.(written := l.written + [l.queued[0]], queued := l.queued[1..], log := l.log + [l.received[l.queued[0]]])
  }

  ghost function DropFront(l: Ledger): (r: Ledger)
    requires l.queued != []
  {
    l.(queued := l.queued[1..])
  }

  lemma SoundSplit(l: Ledger)
    requires Sound(l)
    ensures Below(l.written, |l.received|) && Below(l.queued, |l.received|)
    ensures Increasing(l.written) && Increasing(l.queued)
    ensures forall i, j :: 0 <= i < |l.written| && 0 <= j < |l.queued| ==> l.written[i] < l.queued[j]
  {
    var all := l.written + l.queued;
    forall i | 0 <= i < |l.written| ensures l.written[i] == all[i] {}
    forall j | 0 <= j < |l.queued| ensures l.queued[j] == all[|l.written| + j] {}
  }

  lemma ArriveSound(l: Ledger, m: Message)
    requires Sound(l)
    ensures Sound(Arrive(l, m))
  {
    var l' := Arrive(l, m);
    assert l'.written + l'.queued == (l.written + l.queued) + [|l.received|];
  }

  lemma WriteSound(l: Ledger)
    requires Sound(l) && l.queued != []
    ensures l.queued[0] < |l.received| && Sound(WriteFront(l))
  {
    SoundSplit(l);
    var l' := WriteFront(l);
    assert l'.written + l'.queued == l.written + l.queued;
  }

  lemma DropSound(l: Ledger)
    requires Sound(l) && l.queued != []
    ensures Sound(DropFront(l))
  {
    var l' := DropFront(l);
    var all, all' := l.written + l.queued, l'.written + l'.queued;
    forall i, j | 0 <= i < j < |all'| ensures all'[i] < all'[j] {
      assert all'[i] == if i < |l.written| then all[i] else all[i + 1];
      assert all'[j] == if j < |l.written| then all[j] else all[j + 1];
    }
    forall i | 0 <= i < |all'| ensures all'[i] < |l.received| {
      assert all'[i] == if i < |l.written| then all[i] else all[i + 1];
    }
  }
}
