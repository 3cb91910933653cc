/** What the artifact table says after a run of concurrent puts and deletes, and when a put fails. */
module PutHistory {
  import opened ArtifactDeltas
  import Paths

  /** A run with its states: `states[n]` is the one before step `n`. */
  ghost predicate Trace(steps: seq<Step>, states: seq<State>, stamping: Stamping) {
    && |states| == |steps| + 1 && states[0] == EMPTY
    && forall n :: 0 <= n < |steps| ==> Follows(states[n], steps[n], states[n + 1], stamping)
  }

  ghost predicate Follows(s: State, a: Step, s': State, stamping: Stamping) {
    Enabled(s, a) && s' == Apply(s, a, stamping)
  }

  lemma {:induction false} StatesOf(s: State, steps: seq<Step>, stamping: Stamping) returns (states: seq<State>)
    requires IsRun(s, steps, stamping)
    ensures |states| == |steps| + 1 && states[0] == s && states[|steps|] == After(s, steps, stamping)
    ensures forall n :: 0 <= n < |steps| ==> Follows(states[n], steps[n], states[n + 1], stamping)
    decreases |steps|
  {
    if steps == [] {
      states := [s];
    } else {
      hide Enabled, Apply;
      var rest := StatesOf(Apply(s, steps[0], stamping), steps[1..], stamping);
      states := [s] + rest;
      forall n | 0 <= n < |steps|
        ensures Follows(states[n], steps[n], states[n + 1], stamping)
      {
        if n > 0 {
          assert Follows(rest[n - 1], steps[1..][n - 1], rest[n], stamping);
        }
      }
    }
  }

  // --- What each client came for ---

  /** The path a caller names, as the table keeps it. */
  function Named(repo: string, rawPath: Paths.Path): Key {
    Key(repo, Paths.Normalize(rawPath))
  }

  predicate IsStart(a: Step) {
    a.StartPut? || a.StartDelete?
  }

  /** Step `p`, before step `n`, is where client `c` started. */
  ghost predicate StartsAt(steps: seq<Step>, p: nat, n: nat, c: nat) {
    p < n <= |steps| && IsStart(steps[p]) && steps[p].client == c
  }

  function KeyOf(a: Step): Key
    requires IsStart(a)
  {
    Named(a.repo, a.rawPath)
  }

  /** Client `c` came to put or delete `key`. */
  ghost predicate Wants(steps: seq<Step>, c: nat, key: Key) {
    exists p: nat :: StartsAt(steps, p, |steps|, c) && KeyOf(steps[p]) == key
  }

  /** No step from `i` on writes or deletes this key. */
  ghost predicate Untouched(steps: seq<Step>, i: nat, key: Key) {
    forall j :: i <= j < |steps| && (steps[j].CompareAndSet? || steps[j].DeleteReturning?) ==>
                  !Wants(steps, steps[j].client, key)
  }

  /** At step `i` client `c` tried to write and found the record changed: one is there that was not,
      or the one it had read is gone or carries another stamp. */
  ghost predicate Conflict(steps: seq<Step>, states: seq<State>, i: nat, c: nat)
    requires |states| == |steps| + 1 && i < |steps|
  {
    && steps[i] == CompareAndSet(c) && c in states[i].clients && states[i].clients[c].Writing?
    && var me, table := states[i].clients[c], states[i].table;
       if me.seen.None? then me.key in table
       else me.key !in table || table[me.key].version != me.seen.value.version
  }

  ghost function Conflicts(steps: seq<Step>, states: seq<State>, n: nat, c: nat): set<nat>
    requires |states| == |steps| + 1 && n <= |steps|
  {
    set i: nat | i < n && Conflict(steps, states, i, c)
  }

  /** What a client is on is what it came for. */
  ghost predicate OnTask(steps: seq<Step>, p: nat, n: nat, c: nat, me: Client) {
    && StartsAt(steps, p, n, c)
    && (me.Reading? || me.Writing? ==>
          steps[p].StartPut? && steps[p].rawPath != [] && me.key == KeyOf(steps[p]) && me.rec == steps[p].rec)
    && (me.Deleting? ==> steps[p].StartDelete? && me.key == KeyOf(steps[p]))
  }

  /** It has met as many conflicts as it counts; it fails at the third, or for an empty path. */
  ghost predicate Counts(steps: seq<Step>, p: nat, me: Client, conflicts: nat)
    requires p < |steps| && IsStart(steps[p])
  {
    && (me.Reading? || me.Writing? ==> conflicts == me.attempt < MAX_RETRIES)
    && (me.Failed? ==> steps[p].rawPath == [] || conflicts == MAX_RETRIES)
  }

  ghost predicate ToldAt(steps: seq<Step>, states: seq<State>, p: nat, n: nat, c: nat, me: Client)
    requires |states| == |steps| + 1 && n <= |steps|
  {
    OnTask(steps, p, n, c, me) && Counts(steps, p, me, |Conflicts(steps, states, n, c)|)
  }

  ghost predicate Told(steps: seq<Step>, states: seq<State>, n: nat)
    requires |states| == |steps| + 1 && n <= |steps|
  {
    && (forall c :: c in states[n].clients ==> exists p :: ToldAt(steps, states, p, n, c, states[n].clients[c]))
    && (forall c :: c !in states[n].clients ==> Conflicts(steps, states, n, c) == {})
    && (forall p :: 0 <= p < n && IsStart(steps[p]) ==> steps[p].client in states[n].clients)
  }

  lemma ConflictsNext(steps: seq<Step>, states: seq<State>, n: nat, c: nat)
    requires |states| == |steps| + 1 && n < |steps|
    ensures Conflicts(steps, states, n + 1, c)
         == Conflicts(steps, states, n, c) + if Conflict(steps, states, n, c) then {n} else {}
    ensures |Conflicts(steps, states, n + 1, c)|
         == |Conflicts(steps, states, n, c)| + if Conflict(steps, states, n, c) then 1 else 0
  {
    hide Conflict;
    var before, after := Conflicts(steps, states, n, c), Conflicts(steps, states, n + 1, c);
    assert after == before + if Conflict(steps, states, n, c) then {n} else {};
    assert n !in before;
  }

  lemma {:induction false} AlwaysTold(steps: seq<Step>, states: seq<State>, stamping: Stamping, n: nat)
    requires Trace(steps, states, stamping) && n <= |steps|
    ensures Told(steps, states, n)
  {
    if n == 0 {
      ToldAtFirst(steps, states);
    } else {
      AlwaysTold(steps, states, stamping, n - 1);
      assert Follows(states[n - 1], steps[n - 1], states[n], stamping);
      OthersStay(states[n - 1], steps[n - 1], states[n], stamping);
      hide Follows, Conflict, Conflicts, ToldAt;
      forall c | c in states[n].clients
        ensures exists p :: ToldAt(steps, states, p, n, c, states[n].clients[c])
      {
        var p := ToldNext(steps, states, stamping, n - 1, c);
      }
      forall c | c !in states[n].clients
        ensures Conflicts(steps, states, n, c) == {}
      {
        NoConflict(steps, states, n - 1, c);
      }
    }
  }

  lemma ToldAtFirst(steps: seq<Step>, states: seq<State>)
    requires |states| == |steps| + 1 && states[0] == EMPTY
    ensures Told(steps, states, 0)
  {
    hide Conflict;
  }

  lemma NoConflict(steps: seq<Step>, states: seq<State>, n: nat, c: nat)
    requires |states| == |steps| + 1 && n < |steps| && c !in states[n].clients && Conflicts(steps, states, n, c) == {}
    ensures Conflicts(steps, states, n + 1, c) == {}
  {
    ConflictsNext(steps, states, n, c);
    hide Conflicts;
  }

  /** A step leaves every other client as it was. */
  lemma OthersStay(s: State, a: Step, s': State, stamping: Stamping)
    requires Follows(s, a, s', stamping)
    ensures forall c :: c in s.clients ==> c in s'.clients
    ensures forall c :: c in s'.clients && c != a.client ==> c in s.clients && s'.clients[c] == s.clients[c]
    ensures a.client in s'.clients && (IsStart(a) <==> a.client !in s.clients)
  {
  }

  lemma ToldNext(steps: seq<Step>, states: seq<State>, stamping: Stamping, n: nat, c: nat) returns (p: nat)
    requires |states| == |steps| + 1 && n < |steps| && Told(steps, states, n)
    requires Follows(states[n], steps[n], states[n + 1], stamping) && c in states[n + 1].clients
    ensures ToldAt(steps, states, p, n + 1, c, states[n + 1].clients[c])
  {
    OthersStay(states[n], steps[n], states[n + 1], stamping);
    ConflictsNext(steps, states, n, c);
    hide Conflicts;
    if c !in states[n].clients {
      p := n;
      FirstTold(states[n], steps[n], states[n + 1], stamping);
    } else {
      p :| ToldAt(steps, states, p, n, c, states[n].clients[c]);
      if c == steps[n].client {
        var k := |Conflicts(steps, states, n, c)|;
        OwnStep(steps, states, stamping, p, n, k, k + if Conflict(steps, states, n, c) then 1 else 0);
      }
    }
  }

  lemma FirstTold(s: State, a: Step, s': State, stamping: Stamping)
    requires Follows(s, a, s', stamping) && IsStart(a)
    ensures var me := s'.clients[a.client];
            && (me.Reading? ==> a.StartPut? && a.rawPath != [] && me.key == KeyOf(a) && me.rec == a.rec && me.attempt == 0)
            && (me.Deleting? ==> a.StartDelete? && me.key == KeyOf(a))
            && (me.Failed? ==> a.rawPath == []) && !me.Writing?
  {
  }

  /** What a client does itself keeps it on its task and its count right. */
  lemma OwnStep(steps: seq<Step>, states: seq<State>, stamping: Stamping, p: nat, n: nat, before: nat, after: nat)
    requires |states| == |steps| + 1 && n < |steps| && Follows(states[n], steps[n], states[n + 1], stamping)
    requires steps[n].client in states[n].clients
    requires var c := steps[n].client;
             && OnTask(steps, p, n, c, states[n].clients[c]) && Counts(steps, p, states[n].clients[c], before)
             && after == before + if Conflict(steps, states, n, c) then 1 else 0
    ensures var c := steps[n].client;
            OnTask(steps, p, n + 1, c, states[n + 1].clients[c]) && Counts(steps, p, states[n + 1].clients[c], after)
  {
    hide KeyOf;
  }

  /** A client starts once. */
  lemma StartsOnce(steps: seq<Step>, states: seq<State>, stamping: Stamping, p: nat, q: nat)
    requires Trace(steps, states, stamping) && p < |steps| && q < |steps| && steps[p].client == steps[q].client
    requires IsStart(steps[p]) && IsStart(steps[q])
    ensures p == q
  {
    if p != q {
      var i, j := if p < q then p else q, if p < q then q else p;
      AlwaysTold(steps, states, stamping, j);
      assert Follows(states[j], steps[j], states[j + 1], stamping);
      OthersStay(states[j], steps[j], states[j + 1], stamping);
    }
  }

  lemma {:induction false} RecordStays(steps: seq<Step>, states: seq<State>, stamping: Stamping, i: nat, key: Key)
    requires Trace(steps, states, stamping) && i <= |steps| && Untouched(steps, i, key)
    ensures Lookup(states[|steps|].table, key) == Lookup(states[i].table, key)
    decreases |steps| - i
  {
    if i < |steps| {
      OtherKeyStays(steps, states, stamping, i, key);
      RecordStays(steps, states, stamping, i + 1, key);
    }
  }

  lemma OtherKeyStays(steps: seq<Step>, states: seq<State>, stamping: Stamping, n: nat, key: Key)
    requires Trace(steps, states, stamping) && n < |steps|
    requires steps[n].CompareAndSet? || steps[n].DeleteReturning? ==> !Wants(steps, steps[n].client, key)
    ensures Lookup(states[n + 1].table, key) == Lookup(states[n].table, key)
  {
    var a, s := steps[n], states[n];
    assert Follows(s, a, states[n + 1], stamping);
    AlwaysTold(steps, states, stamping, n);
    hide Conflicts, Counts, KeyOf, Named;
    if a.CompareAndSet? || a.DeleteReturning? {
      var p :| ToldAt(steps, states, p, n, a.client, s.clients[a.client]);
      assert StartsAt(steps, p, |steps|, a.client);
    }
  }

  // --- The results ---

  /** A put that meets no conflict has its own record in the table under its normalised path, until
      someone else writes or deletes there. */
  lemma LastPutStands(steps: seq<Step>, states: seq<State>, stamping: Stamping, p: nat, i: nat, c: nat,
                      repo: string, rawPath: Paths.Path, rec: Record)
    requires Trace(steps, states, stamping) && p < |steps| && i < |steps|
    requires steps[p] == StartPut(c, repo, rawPath, rec) && steps[i] == CompareAndSet(c) && !Conflict(steps, states, i, c)
    requires Untouched(steps, i + 1, Named(repo, rawPath))
    ensures var table := states[|steps|].table;
            Named(repo, rawPath) in table && table[Named(repo, rawPath)].rec == rec
  {
    AlwaysTold(steps, states, stamping, i);
    assert Follows(states[i], steps[i], states[i + 1], stamping);
    hide Conflicts, Counts, Named;
    var q :| ToldAt(steps, states, q, i, c, states[i].clients[c]);
    StartsOnce(steps, states, stamping, p, q);
    RecordStays(steps, states, stamping, i + 1, Named(repo, rawPath));
  }

  /** A deletion leaves nothing there, until someone writes. */
  lemma LastDeleteStands(steps: seq<Step>, states: seq<State>, stamping: Stamping, p: nat, i: nat, c: nat,
                         repo: string, rawPath: Paths.Path)
    requires Trace(steps, states, stamping) && p < |steps| && i < |steps|
    requires steps[p] == StartDelete(c, repo, rawPath) && steps[i] == DeleteReturning(c)
    requires Untouched(steps, i + 1, Named(repo, rawPath))
    ensures Named(repo, rawPath) !in states[|steps|].table
  {
    AlwaysTold(steps, states, stamping, i);
    assert Follows(states[i], steps[i], states[i + 1], stamping);
    hide Conflicts, Counts, Named;
    var q :| ToldAt(steps, states, q, i, c, states[i].clients[c]);
    StartsOnce(steps, states, stamping, p, q);
    RecordStays(steps, states, stamping, i + 1, Named(repo, rawPath));
  }

  /** A put of a non-empty path fails only after exactly three conflicts. */
  lemma FailsAfterThree(steps: seq<Step>, states: seq<State>, stamping: Stamping, p: nat, c: nat,
                        repo: string, rawPath: Paths.Path, rec: Record)
    requires Trace(steps, states, stamping) && p < |steps| && steps[p] == StartPut(c, repo, rawPath, rec) && rawPath != []
    requires c in states[|steps|].clients && states[|steps|].clients[c].Failed?
    ensures |Conflicts(steps, states, |steps|, c)| == 3
  {
    AlwaysTold(steps, states, stamping, |steps|);
    hide Conflicts;
    var q :| ToldAt(steps, states, q, |steps|, c, states[|steps|].clients[c]);
    StartsOnce(steps, states, stamping, p, q);
  }
}
