/**
 * The document assembly of gitlog2premis_sample.py: one `object` per
 * tracked path, then one `event` per (path, commit) pair of its history,
 * then one `agent` per entry of the author table that the event loop fills,
 * all appended under the `premis` root in that order.
 *
 * Python 2 dictionaries iterate in an unspecified order. The loops over a
 * file's history and over the author table therefore pick their next key
 * with `:|`, and return the order they used as a ghost out-parameter; what
 * is proved holds whatever that order is.
 */
module Premis {
  import opened Wrappers
  import opened Xml
  import opened GitLog
  import opened PremisRecords

  /** `IndexError: list index out of range`, raised on the fields of commit `hash` of `path`. */
  datatype TransformError = IndexError(path: string, hash: string)

  /** One iteration of the event loop: a tracked path, one of its commits and that commit's fields. */
  datatype Visit = Visit(path: string, hash: string, details: seq<string>)

  /** The values left by the event loop: the `event` elements in append order and the author table. */
  datatype EventPass = EventPass(events: seq<Node>, agents: map<string, string>)

  /** `xs` lists every element of `s` exactly once: one iteration order of a dictionary's keys. */
  ghost predicate IsEnumeration(xs: seq<string>, s: set<string>)
  {
    (forall i, j :: 0 <= i < j < |xs| ==> xs[i] != xs[j]) && (forall x :: x in xs <==> x in s)
  }

  lemma {:induction false} EnumerationSize(xs: seq<string>, s: set<string>)
    requires IsEnumeration(xs, s)
    ensures |xs| == |s|
    decreases |xs|
  {
    if xs == [] {
      assert forall x :: x !in s;
    } else {
      var n := |xs| - 1;
      var last := xs[n];
      assert IsEnumeration(xs[..n], s - {last}) by {
        assert xs == xs[..n] + [last];
        forall x | x in xs[..n] ensures x != last {
          var j :| 0 <= j < n && xs[..n][j] == x;
          assert xs[j] == x;
        }
      }
      EnumerationSize(xs[..n], s - {last});
    }
  }

  lemma EnumerationSnoc(xs: seq<string>, s: set<string>, x: string)
    requires IsEnumeration(xs, s) && x !in s
    ensures IsEnumeration(xs + [x], s + {x})
  {
    assert forall i :: 0 <= i < |xs| ==> (xs + [x])[i] == xs[i];
  }

  /** Every tracked path has a history table (`repo_history[file[0]]` never fails). */
  predicate Tracked(files: seq<string>, repoHistory: map<string, map<string, seq<string>>>)
  {
    forall i :: 0 <= i < |files| ==> files[i] in repoHistory
  }

  /** `orders[i]` is one iteration order of the history of `files[i]`. */
  ghost predicate WellOrdered(files: seq<string>, repoHistory: map<string, map<string, seq<string>>>, orders: seq<seq<string>>)
  {
    Tracked(files, repoHistory) && |orders| == |files| &&
    forall i :: 0 <= i < |files| ==> IsEnumeration(orders[i], repoHistory[files[i]].Keys)
  }

  /** Every stored commit of every tracked path has the four fields the event loop reads. */
  predicate Complete(files: seq<string>, repoHistory: map<string, map<string, seq<string>>>)
    requires Tracked(files, repoHistory)
  {
    forall i, k :: 0 <= i < |files| && k in repoHistory[files[i]] ==> |repoHistory[files[i]][k]| >= 4
  }

  predicate AllComplete(visits: seq<Visit>)
  {
    forall i :: 0 <= i < |visits| ==> |visits[i].details| >= 4
  }

  /** The iterations over the history `h` of `path` in the order `order`. */
  function FileVisits(path: string, h: map<string, seq<string>>, order: seq<string>): (r: seq<Visit>)
    requires forall k :: k in order ==> k in h
    ensures |r| == |order|
  {
    seq(|order|, j requires 0 <= j < |order| => Visit(path, order[j], h[order[j]]))
  }

  /** All iterations of the event loop: file by file, and within a file in that file's order. */
  function Visits(files: seq<string>, repoHistory: map<string, map<string, seq<string>>>, orders: seq<seq<string>>): seq<Visit>
    requires WellOrdered(files, repoHistory, orders)
    decreases |files|
  {
    if files == [] then []
    else
      var n := |files| - 1;
      assert WellOrdered(files[..n], repoHistory, orders[..n]);
      Visits(files[..n], repoHistory, orders[..n]) + FileVisits(files[n], repoHistory[files[n]], orders[n])
  }

  /** The `event` elements of a sequence of iterations. */
  function Events(visits: seq<Visit>): (r: seq<Node>)
    requires AllComplete(visits)
    ensures |r| == |visits|
  {
    seq(|visits|, i requires 0 <= i < |visits| => EventElement(visits[i].path, visits[i].hash, visits[i].details))
  }

  /**
   * The author table after the iterations: `agents[l[1]] = l[0]` only when
   * the address `l[1]` is not yet a key.
   */
  function AgentTable(visits: seq<Visit>): map<string, string>
    requires AllComplete(visits)
    decreases |visits|
  {
    if visits == [] then map[]
    else
      var n := |visits| - 1;
      var table := AgentTable(visits[..n]);
      var l := visits[n].details;
      if l[1] in table then table else table[l[1] := l[0]]
  }

  /** The `object` elements, one per index entry, in index order. */
  function Objects(files: seq<string>, md5: string -> string): (r: seq<Node>)
    ensures |r| == |files|
  {
    seq(|files|, i requires 0 <= i < |files| => ObjectElement(files[i], md5(files[i])))
  }

  /** The `agent` elements of the author table in the order `order`. */
  function Agents(table: map<string, string>, order: seq<string>): (r: seq<Node>)
    requires forall e :: e in order ==> e in table
    ensures |r| == |order|
  {
    seq(|order|, i requires 0 <= i < |order| => AgentElement(order[i], table[order[i]]))
  }

  /** The whole document, for given iteration orders of the dictionaries. */
  function Document(files: seq<string>, repoHistory: map<string, map<string, seq<string>>>, md5: string -> string,
                    orders: seq<seq<string>>, agentOrder: seq<string>): Node
    requires WellOrdered(files, repoHistory, orders)
    requires AllComplete(Visits(files, repoHistory, orders))
    requires IsEnumeration(agentOrder, AgentTable(Visits(files, repoHistory, orders)).Keys)
  {
    var visits := Visits(files, repoHistory, orders);
    Branch("premis", Objects(files, md5) + Events(visits) + Agents(AgentTable(visits), agentOrder))
  }

  /** The loop that appends one `object` per index entry. */
  method EmitObjects(files: seq<string>, md5: string -> string) returns (objects: seq<Node>)
    ensures objects == Objects(files, md5)
  {
    objects := [];
    for i := 0 to |files|
      invariant objects == Objects(files[..i], md5)
    {
      objects := objects + [ObjectElement(files[i], md5(files[i]))];
    }
    assert files[..|files|] == files;
  }

  lemma FileVisitsSnoc(path: string, h: map<string, seq<string>>, order: seq<string>, k: string)
    requires forall x :: x in order ==> x in h
    requires k in h
    ensures FileVisits(path, h, order + [k]) == FileVisits(path, h, order) + [Visit(path, k, h[k])]
  {
  }

  lemma VisitsSnoc(files: seq<string>, repoHistory: map<string, map<string, seq<string>>>, orders: seq<seq<string>>, i: nat, order: seq<string>)
    requires i < |files| && WellOrdered(files[..i], repoHistory, orders)
    requires files[i] in repoHistory && IsEnumeration(order, repoHistory[files[i]].Keys)
    ensures WellOrdered(files[..i + 1], repoHistory, orders + [order])
    ensures Visits(files[..i + 1], repoHistory, orders + [order]) ==
      Visits(files[..i], repoHistory, orders) + FileVisits(files[i], repoHistory[files[i]], order)
  {
    assert files[..i + 1][..i] == files[..i];
    assert (orders + [order])[..i] == orders;
  }

  lemma EventsSnoc(visits: seq<Visit>, v: Visit)
    requires AllComplete(visits) && |v.details| >= 4
    ensures AllComplete(visits + [v])
    ensures Events(visits + [v]) == Events(visits) + [EventElement(v.path, v.hash, v.details)]
  {
  }

  lemma AgentTableSnoc(visits: seq<Visit>, v: Visit)
    requires AllComplete(visits) && |v.details| >= 4
    ensures AllComplete(visits + [v])
    ensures AgentTable(visits + [v]) ==
      if v.details[1] in AgentTable(visits) then AgentTable(visits) else AgentTable(visits)[v.details[1] := v.details[0]]
  {
    assert (visits + [v])[..|visits|] == visits;
  }

  /**
   * The state of the inner event loop over the history `h` of `path`: the keys
   * visited so far, in `order`, are those not `remaining`, each had at least four
   * fields, and `events` and `agents` are what the iterations so far, after
   * `visits`, leave behind.
   */
  ghost predicate FileLoop(path: string, h: map<string, seq<string>>, visits: seq<Visit>, remaining: set<string>,
                           order: seq<string>, events: seq<Node>, agents: map<string, string>)
  {
    remaining <= h.Keys && IsEnumeration(order, h.Keys - remaining) &&
    (forall k :: k in h && k !in remaining ==> |h[k]| >= 4) &&
    AllComplete(visits + FileVisits(path, h, order)) &&
    events == Events(visits + FileVisits(path, h, order)) &&
    agents == AgentTable(visits + FileVisits(path, h, order))
  }

  lemma FileLoopStart(path: string, h: map<string, seq<string>>, visits: seq<Visit>)
    requires AllComplete(visits)
    ensures FileLoop(path, h, visits, h.Keys, [], Events(visits), AgentTable(visits))
  {
    assert visits + FileVisits(path, h, []) == visits;
  }

  /** One iteration of the inner event loop keeps `FileLoop`. */
  lemma FileLoopStep(path: string, h: map<string, seq<string>>, visits: seq<Visit>, remaining: set<string>,
                     order: seq<string>, events: seq<Node>, agents: map<string, string>, k: string)
    requires FileLoop(path, h, visits, remaining, order, events, agents)
    requires k in remaining && |h[k]| >= 4
    ensures var l := h[k];
      FileLoop(path, h, visits, remaining - {k}, order + [k], events + [EventElement(path, k, l)],
               if l[1] in agents then agents else agents[l[1] := l[0]])
  {
    var done := visits + FileVisits(path, h, order);
    var v := Visit(path, k, h[k]);
    EnumerationSnoc(order, h.Keys - remaining, k);
    assert (h.Keys - remaining) + {k} == h.Keys - (remaining - {k});
    FileVisitsSnoc(path, h, order, k);
    assert visits + FileVisits(path, h, order + [k]) == done + [v];
    EventsSnoc(done, v);
    AgentTableSnoc(done, v);
  }

  /** Once no key remains, every key was visited and every history entry has four fields. */
  lemma FileLoopDone(path: string, h: map<string, seq<string>>, visits: seq<Visit>,
                     order: seq<string>, events: seq<Node>, agents: map<string, string>)
    requires FileLoop(path, h, visits, {}, order, events, agents)
    ensures IsEnumeration(order, h.Keys) && forall k :: k in h ==> |h[k]| >= 4
  {
    assert h.Keys - {} == h.Keys;
  }

  /**
   * The inner event loop over one file's history (`for k, l in
   * repo_history[file[0]].iteritems()`), continuing from the events and the
   * author table left by the files before it.
   */
  method EmitFileEvents(path: string, fileHistory: map<string, seq<string>>,
                        events0: seq<Node>, agents0: map<string, string>, ghost visits: seq<Visit>)
    returns (r: Result<EventPass, TransformError>, ghost order: seq<string>)
    requires AllComplete(visits) && events0 == Events(visits) && agents0 == AgentTable(visits)
    ensures r.Success? <==> forall k :: k in fileHistory ==> |fileHistory[k]| >= 4
    ensures r.Failure? ==> r.error.path == path && r.error.hash in fileHistory && |fileHistory[r.error.hash]| < 4
    ensures r.Success? ==> IsEnumeration(order, fileHistory.Keys) && AllComplete(visits + FileVisits(path, fileHistory, order))
    ensures r.Success? ==> r.value.events == Events(visits + FileVisits(path, fileHistory, order))
    ensures r.Success? ==> r.value.agents == AgentTable(visits + FileVisits(path, fileHistory, order))
  {
    var events, agents := events0, agents0;
    var remaining := fileHistory.Keys;
    order := [];
    FileLoopStart(path, fileHistory, visits);
    while remaining != {}
      invariant FileLoop(path, fileHistory, visits, remaining, order, events, agents)
      decreases remaining
    {
      var k :| k in remaining;
      var l := fileHistory[k];
      if |l| < 4 {
        r := Failure(IndexError(path, k));
        return;
      }
      FileLoopStep(path, fileHistory, visits, remaining, order, events, agents, k);
      if l[1] !in agents {
        agents := agents[l[1] := l[0]];
      }
      events := events + [EventElement(path, k, l)];
      order := order + [k];
      remaining := remaining - {k};
    }
    FileLoopDone(path, fileHistory, visits, order, events, agents);
    r := Success(EventPass(events, agents));
  }

  /**
   * The event loop (`for file in files`): one `event` per stored commit, the
   * author table filled on first sight of each address, and `IndexError` on
   * a commit whose field list is too short.
   */
  method EmitEvents(files: seq<string>, repoHistory: map<string, map<string, seq<string>>>)
    returns (r: Result<EventPass, TransformError>, ghost orders: seq<seq<string>>)
    requires Tracked(files, repoHistory)
    ensures r.Success? <==> Complete(files, repoHistory)
    ensures r.Failure? ==> (r.error.path in files && r.error.path in repoHistory &&
                            r.error.hash in repoHistory[r.error.path] && |repoHistory[r.error.path][r.error.hash]| < 4)
    ensures r.Success? ==> WellOrdered(files, repoHistory, orders) && AllComplete(Visits(files, repoHistory, orders))
    ensures r.Success? ==> r.value.events == Events(Visits(files, repoHistory, orders))
    ensures r.Success? ==> r.value.agents == AgentTable(Visits(files, repoHistory, orders))
  {
    var events: seq<Node> := [];
    var agents: map<string, string> := map[];
    ghost var visits: seq<Visit> := [];
    orders := [];
    for i := 0 to |files|
      invariant WellOrdered(files[..i], repoHistory, orders)
      invariant visits == Visits(files[..i], repoHistory, orders)
      invariant AllComplete(visits)
      invariant forall p, k :: 0 <= p < i && k in repoHistory[files[p]] ==> |repoHistory[files[p]][k]| >= 4
      invariant events == Events(visits)
      invariant agents == AgentTable(visits)
    {
      var pass, order := EmitFileEvents(files[i], repoHistory[files[i]], events, agents, visits);
      if pass.Failure? {
        assert files[i] in files;
        assert !Complete(files, repoHistory) by {
          assert pass.error.hash in repoHistory[files[i]] && |repoHistory[files[i]][pass.error.hash]| < 4;
        }
        r := Failure(pass.error);
        return;
      }
      VisitsSnoc(files, repoHistory, orders, i, order);
      assert forall p, k :: 0 <= p < i + 1 && k in repoHistory[files[p]] ==> |repoHistory[files[p]][k]| >= 4 by {
        assert forall k :: k in repoHistory[files[i]] ==> |repoHistory[files[i]][k]| >= 4;
      }
      events, agents := pass.value.events, pass.value.agents;
      visits := visits + FileVisits(files[i], repoHistory[files[i]], order);
      orders := orders + [order];
    }
    assert Complete(files, repoHistory) && visits == Visits(files, repoHistory, orders) by {
      assert files[..|files|] == files;
    }
    r := Success(EventPass(events, agents));
  }

  /** The loop that appends one `agent` per entry of the author table (`agents.iteritems()`). */
  method EmitAgents(agents: map<string, string>) returns (elements: seq<Node>, ghost order: seq<string>)
    ensures IsEnumeration(order, agents.Keys)
    ensures elements == Agents(agents, order)
  {
    elements := [];
    order := [];
    var remaining := agents.Keys;
    while remaining != {}
      invariant remaining <= agents.Keys
      invariant IsEnumeration(order, agents.Keys - remaining)
      invariant elements == Agents(agents, order)
      decreases remaining
    {
      var email :| email in remaining;
      elements := elements + [AgentElement(email, agents[email])];
      order := order + [email];
      remaining := remaining - {email};
    }
  }

  /**
   * The whole script after argument checking: read the history of every
   * tracked path, then append the objects, the events and the agents under
   * the `premis` root. `gitLog` answers `git log` for one path and `md5`
   * stands for `hashlib.md5(path).hexdigest()`.
   */
  method Transform(files: seq<string>, gitLog: string -> string, md5: string -> string)
    returns (r: Result<Node, TransformError>, ghost orders: seq<seq<string>>, ghost agentOrder: seq<string>)
    ensures Tracked(files, RepoHistory(files, gitLog))
    ensures r.Success? <==> Complete(files, RepoHistory(files, gitLog))
    ensures r.Failure? ==> var rh := RepoHistory(files, gitLog);
      r.error.path in files && r.error.hash in rh[r.error.path] && |rh[r.error.path][r.error.hash]| < 4
    ensures r.Success? ==> var rh := RepoHistory(files, gitLog);
      WellOrdered(files, rh, orders) && AllComplete(Visits(files, rh, orders)) &&
      IsEnumeration(agentOrder, AgentTable(Visits(files, rh, orders)).Keys) &&
      r.value == Document(files, rh, md5, orders, agentOrder)
  {
    var repoHistory := BuildRepoHistory(files, gitLog);
    var objects := EmitObjects(files, md5);
    var pass;
    pass, orders := EmitEvents(files, repoHistory);
    if pass.Failure? {
      return Failure(pass.error), orders, [];
    }
    var agentElements;
    agentElements, agentOrder := EmitAgents(pass.value.agents);
    r := Success(Branch("premis", objects + pass.value.events + agentElements));
  }
}
