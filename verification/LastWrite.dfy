/** Logs in which the latest entry of each agent counts. */
module LastWrite {
  datatype Entry<V> = Entry(agent: string, value: V)

  /** What a map holds after every entry was set in turn. */
  function Latest<V>(log: seq<Entry<V>>): map<string, V> {
    if log == [] then map[] else Latest(log[..|log| - 1])[log[|log| - 1].agent := log[|log| - 1].value]
  }

  /** The entries of one agent, in order. */
  function Of<V>(log: seq<Entry<V>>, agent: string): seq<Entry<V>> {
    if log == [] then []
    else if log[|log| - 1].agent == agent then Of(log[..|log| - 1], agent) + [log[|log| - 1]]
    else Of(log[..|log| - 1], agent)
  }

  /** The two logs hold the same entries of every agent in the same order; they may interleave the agents freely. */
  ghost predicate SameButForInterleaving<V(!new)>(a: seq<Entry<V>>, b: seq<Entry<V>>) {
    forall agent :: Of(a, agent) == Of(b, agent)
  }

  /** An agent is in the map exactly when it has an entry, with its last value. */
  lemma {:induction false} LatestIsLast<V>(log: seq<Entry<V>>, agent: string)
    ensures agent in Latest(log) <==> Of(log, agent) != []
    ensures agent in Latest(log) ==> Latest(log)[agent] == Of(log, agent)[|Of(log, agent)| - 1].value
    decreases |log|
  {
    if log != [] {
      LatestIsLast(log[..|log| - 1], agent);
    }
  }

  /** The entry at i is the agent's last one and holds this value. */
  predicate LastAt<V(==)>(log: seq<Entry<V>>, i: int, agent: string, value: V) {
    0 <= i < |log| && log[i] == Entry(agent, value) && forall j :: i < j < |log| ==> log[j].agent != agent
  }

  /** The last entry of the agent in the log holds this value. */
  predicate LastSays<V(==)>(log: seq<Entry<V>>, agent: string, value: V) {
    exists i :: 0 <= i < |log| && LastAt(log, i, agent, value)
  }

  lemma LastSaysSnoc<V>(init: seq<Entry<V>>, last: Entry<V>, agent: string, value: V)
    ensures LastSays(init + [last], agent, value)
       <==> if last.agent == agent then last.value == value else LastSays(init, agent, value)
  {
    var log := init + [last];
    if last.agent == agent {
      assert LastAt(log, |init|, agent, value) <==> last.value == value;
    } else {
      forall i ensures LastAt(log, i, agent, value) <==> LastAt(init, i, agent, value) {
        assert 0 <= i < |init| ==> log[i] == init[i];
        if LastAt(log, i, agent, value) {
          assert forall j :: i < j < |init| ==> log[j] == init[j];
        }
      }
    }
  }

  /** The map holds exactly what the last entries say. */
  lemma {:induction false} LatestSays<V>(log: seq<Entry<V>>, agent: string, value: V)
    ensures agent in Latest(log) && Latest(log)[agent] == value <==> LastSays(log, agent, value)
    decreases |log|
  {
    if log != [] {
      var init, last := log[..|log| - 1], log[|log| - 1];
      assert log == init + [last];
      LatestSays(init, agent, value);
      LastSaysSnoc(init, last, agent, value);
    }
  }

  lemma LatestIgnoresInterleaving<V(!new)>(a: seq<Entry<V>>, b: seq<Entry<V>>)
    requires SameButForInterleaving(a, b)
    ensures Latest(a) == Latest(b)
  {
    var x, y := Latest(a), Latest(b);
    forall agent ensures (agent in x <==> agent in y) && (agent in x ==> x[agent] == y[agent]) {
      LatestIsLast(a, agent);
      LatestIsLast(b, agent);
      assert Of(a, agent) == Of(b, agent);
    }
    assert x.Keys == y.Keys;
  }

  /** An entry is in the log exactly when it is among its agent's entries. */
  lemma {:induction false} InOf<V>(log: seq<Entry<V>>, e: Entry<V>)
    ensures e in log <==> e in Of(log, e.agent)
    decreases |log|
  {
    if log != [] {
      InOf(log[..|log| - 1], e);
      assert log == log[..|log| - 1] + [log[|log| - 1]];
    }
  }

  lemma SameEntries<V(!new)>(a: seq<Entry<V>>, b: seq<Entry<V>>, e: Entry<V>)
    requires SameButForInterleaving(a, b)
    ensures e in a <==> e in b
  {
    InOf(a, e);
    InOf(b, e);
  }
}
