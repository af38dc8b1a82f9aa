/**
 * What the document built by `Premis.Transform` is, whatever order the
 * dictionaries are iterated in: how many records of each kind, in which
 * order, what each record says, and how events link to objects and agents.
 */
module PremisProperties {
  import opened Wrappers
  import opened Xml
  import opened GitLog
  import opened PremisRecords
  import opened Premis

  /** Which iterations the event loop makes: every stored commit of every tracked path, and nothing else. */
  lemma {:induction false} VisitsMembers(files: seq<string>, repoHistory: map<string, map<string, seq<string>>>, orders: seq<seq<string>>)
    requires WellOrdered(files, repoHistory, orders)
    ensures forall v :: v in Visits(files, repoHistory, orders) ==>
      exists i :: 0 <= i < |files| && v.path == files[i] && v.hash in repoHistory[files[i]] && v.details == repoHistory[files[i]][v.hash]
    ensures forall i, k :: 0 <= i < |files| && k in repoHistory[files[i]] ==>
      Visit(files[i], k, repoHistory[files[i]][k]) in Visits(files, repoHistory, orders)
    decreases |files|
  {
    if files != [] {
      var n := |files| - 1;
      assert WellOrdered(files[..n], repoHistory, orders[..n]);
      VisitsMembers(files[..n], repoHistory, orders[..n]);
      var front := Visits(files[..n], repoHistory, orders[..n]);
      var last := FileVisits(files[n], repoHistory[files[n]], orders[n]);
      assert Visits(files, repoHistory, orders) == front + last;
      forall v | v in Visits(files, repoHistory, orders)
        ensures exists i :: 0 <= i < |files| && v.path == files[i] && v.hash in repoHistory[files[i]] && v.details == repoHistory[files[i]][v.hash]
      {
        if v in front {
          var i :| 0 <= i < n && v.path == files[..n][i] && v.hash in repoHistory[files[..n][i]] && v.details == repoHistory[files[..n][i]][v.hash];
          assert files[..n][i] == files[i];
        } else {
          var j :| 0 <= j < |last| && last[j] == v;
          assert orders[n][j] in orders[n];
        }
      }
      forall i, k | 0 <= i < |files| && k in repoHistory[files[i]]
        ensures Visit(files[i], k, repoHistory[files[i]][k]) in Visits(files, repoHistory, orders)
      {
        if i < n {
          assert files[..n][i] == files[i];
        } else {
          assert k in orders[n];
          var j :| 0 <= j < |orders[n]| && orders[n][j] == k;
          assert last[j] == Visit(files[i], k, repoHistory[files[i]][k]);
        }
      }
    }
  }

  /**
   * A tracked path whose log is empty makes the run fail: its history holds
   * the key `""` with no fields, and the event loop's `l[1]` raises there.
   */
  lemma EmptyLogIncomplete(files: seq<string>, gitLog: string -> string, p: string)
    requires p in files && gitLog(p) == ""
    ensures Tracked(files, RepoHistory(files, gitLog)) && !Complete(files, RepoHistory(files, gitLog))
  {
    var rh := RepoHistory(files, gitLog);
    EmptyLogHistory();
    var i :| 0 <= i < |files| && files[i] == p;
    assert rh[files[i]] == map["" := []];
    assert "" in rh[files[i]] && |rh[files[i]][""]| < 4;
  }

  /** The loop reads four fields of every iteration exactly when every stored commit has them. */
  lemma VisitsComplete(files: seq<string>, repoHistory: map<string, map<string, seq<string>>>, orders: seq<seq<string>>)
    requires WellOrdered(files, repoHistory, orders)
    ensures AllComplete(Visits(files, repoHistory, orders)) <==> Complete(files, repoHistory)
  {
    VisitsMembers(files, repoHistory, orders);
    var vs := Visits(files, repoHistory, orders);
    if AllComplete(vs) {
      forall i, k | 0 <= i < |files| && k in repoHistory[files[i]] ensures |repoHistory[files[i]][k]| >= 4 {
        var v := Visit(files[i], k, repoHistory[files[i]][k]);
        assert v in vs;
      }
    }
    if Complete(files, repoHistory) {
      forall j | 0 <= j < |vs| ensures |vs[j].details| >= 4 {
        assert vs[j] in vs;
      }
    }
  }

  /** The number of commits stored over all tracked paths. */
  function Commits(files: seq<string>, repoHistory: map<string, map<string, seq<string>>>): nat
    requires Tracked(files, repoHistory)
    decreases |files|
  {
    if files == [] then 0
    else
      var n := |files| - 1;
      assert Tracked(files[..n], repoHistory);
      Commits(files[..n], repoHistory) + |repoHistory[files[n]]|
  }

  /** One iteration per stored commit of every tracked path. */
  lemma {:induction false} VisitsCount(files: seq<string>, repoHistory: map<string, map<string, seq<string>>>, orders: seq<seq<string>>)
    requires WellOrdered(files, repoHistory, orders)
    ensures |Visits(files, repoHistory, orders)| == Commits(files, repoHistory)
    decreases |files|
  {
    if files != [] {
      var n := |files| - 1;
      assert WellOrdered(files[..n], repoHistory, orders[..n]);
      VisitsCount(files[..n], repoHistory, orders[..n]);
      EnumerationSize(orders[n], repoHistory[files[n]].Keys);
    }
  }

  /** How many iterations are about path `p`. */
  function CountPath(visits: seq<Visit>, p: string): nat
    decreases |visits|
  {
    if visits == [] then 0
    else CountPath(visits[..|visits| - 1], p) + (if visits[|visits| - 1].path == p then 1 else 0)
  }

  lemma {:induction false} CountPathConcat(a: seq<Visit>, b: seq<Visit>, p: string)
    ensures CountPath(a + b, p) == CountPath(a, p) + CountPath(b, p)
    decreases |b|
  {
    if b == [] {
      assert a + b == a;
    } else {
      assert (a + b)[..|a + b| - 1] == a + b[..|b| - 1];
      CountPathConcat(a, b[..|b| - 1], p);
    }
  }

  lemma {:induction false} CountPathUniform(visits: seq<Visit>, q: string, p: string)
    requires forall i :: 0 <= i < |visits| ==> visits[i].path == q
    ensures CountPath(visits, p) == if q == p then |visits| else 0
    decreases |visits|
  {
    if visits != [] {
      CountPathUniform(visits[..|visits| - 1], q, p);
    }
  }

  lemma MultisetSnoc(xs: seq<string>, p: string)
    requires xs != []
    ensures multiset(xs)[p] == multiset(xs[..|xs| - 1])[p] + (if xs[|xs| - 1] == p then 1 else 0)
  {
    assert xs == xs[..|xs| - 1] + [xs[|xs| - 1]];
  }

  /**
   * A path tracked once yields as many events linked to it as its history
   * has commits; a path listed m times yields m times as many.
   */
  lemma {:induction false} PathEventCount(files: seq<string>, repoHistory: map<string, map<string, seq<string>>>, orders: seq<seq<string>>, p: string)
    requires WellOrdered(files, repoHistory, orders) && p in repoHistory
    ensures CountPath(Visits(files, repoHistory, orders), p) == multiset(files)[p] * |repoHistory[p]|
    decreases |files|
  {
    if files != [] {
      var n := |files| - 1;
      var m, c := multiset(files[..n])[p], |repoHistory[p]|;
      assert (m + 1) * c == m * c + c;
      assert WellOrdered(files[..n], repoHistory, orders[..n]);
      PathEventCount(files[..n], repoHistory, orders[..n], p);
      var last := FileVisits(files[n], repoHistory[files[n]], orders[n]);
      CountPathConcat(Visits(files[..n], repoHistory, orders[..n]), last, p);
      CountPathUniform(last, files[n], p);
      EnumerationSize(orders[n], repoHistory[files[n]].Keys);
      MultisetSnoc(files, p);
    }
  }

  /**
   * Events per file: a path tracked once yields one event per distinct
   * commit hash of its own log, however often a hash is repeated there.
   */
  lemma FileEventCount(files: seq<string>, gitLog: string -> string, orders: seq<seq<string>>, p: string)
    requires WellOrdered(files, RepoHistory(files, gitLog), orders) && p in files
    ensures var entries := Entries(LogLines(gitLog(p)));
      CountPath(Visits(files, RepoHistory(files, gitLog), orders), p) ==
      multiset(files)[p] * |set i | 0 <= i < |entries| :: entries[i].hash|
  {
    var rh := RepoHistory(files, gitLog);
    PathEventCount(files, rh, orders, p);
    HistorySize(Entries(LogLines(gitLog(p))));
  }

  /** The author table has a key for exactly the addresses `l[1]` seen in the iterations. */
  lemma {:induction false} AgentTableKeys(visits: seq<Visit>)
    requires AllComplete(visits)
    ensures AgentTable(visits).Keys == set i | 0 <= i < |visits| :: visits[i].details[1]
    decreases |visits|
  {
    if visits != [] {
      var n := |visits| - 1;
      assert AllComplete(visits[..n]);
      AgentTableKeys(visits[..n]);
      assert (set i | 0 <= i < n :: visits[..n][i].details[1]) == (set i | 0 <= i < n :: visits[i].details[1]);
      assert (set i | 0 <= i < |visits| :: visits[i].details[1]) ==
        (set i | 0 <= i < n :: visits[i].details[1]) + {visits[n].details[1]};
    }
  }

  /** The name stored for an address is the name `l[0]` of the first iteration that carries that address. */
  lemma {:induction false} AgentFirstSeen(visits: seq<Visit>, i: nat)
    requires AllComplete(visits) && i < |visits|
    requires forall j :: 0 <= j < i ==> visits[j].details[1] != visits[i].details[1]
    ensures visits[i].details[1] in AgentTable(visits)
    ensures AgentTable(visits)[visits[i].details[1]] == visits[i].details[0]
    decreases |visits|
  {
    var n := |visits| - 1;
    assert AllComplete(visits[..n]);
    if i < n {
      AgentFirstSeen(visits[..n], i);
    } else {
      AgentTableKeys(visits[..n]);
      assert visits[i].details[1] !in AgentTable(visits[..n]) by {
        forall j | 0 <= j < n ensures visits[..n][j].details[1] != visits[i].details[1] {
          assert visits[..n][j] == visits[j];
        }
      }
    }
  }

  /** Later iterations never change a name already stored. */
  lemma {:induction false} AgentTableStable(visits: seq<Visit>, later: seq<Visit>)
    requires AllComplete(visits) && AllComplete(later)
    ensures AllComplete(visits + later)
    ensures forall e :: e in AgentTable(visits) ==> e in AgentTable(visits + later) && AgentTable(visits + later)[e] == AgentTable(visits)[e]
    decreases |later|
  {
    if later == [] {
      assert visits + later == visits;
    } else {
      var n := |later| - 1;
      assert AllComplete(later[..n]);
      AgentTableStable(visits, later[..n]);
      assert (visits + later)[..|visits + later| - 1] == visits + later[..n];
    }
  }

  /** The addresses `l[1]` of all stored commits of all tracked paths. */
  ghost function AuthorEmails(files: seq<string>, repoHistory: map<string, map<string, seq<string>>>): set<string>
    requires Tracked(files, repoHistory) && Complete(files, repoHistory)
  {
    set i, k | 0 <= i < |files| && k in repoHistory[files[i]] :: repoHistory[files[i]][k][1]
  }

  lemma TableEmailsAuthored(files: seq<string>, repoHistory: map<string, map<string, seq<string>>>, orders: seq<seq<string>>)
    requires WellOrdered(files, repoHistory, orders) && Complete(files, repoHistory)
    requires AllComplete(Visits(files, repoHistory, orders))
    ensures AgentTable(Visits(files, repoHistory, orders)).Keys <= AuthorEmails(files, repoHistory)
  {
    VisitsMembers(files, repoHistory, orders);
    var vs := Visits(files, repoHistory, orders);
    AgentTableKeys(vs);
    forall e | e in AgentTable(vs) ensures e in AuthorEmails(files, repoHistory) {
      var j :| 0 <= j < |vs| && vs[j].details[1] == e;
      assert vs[j] in vs;
    }
  }

  lemma VisitEmailInTable(visits: seq<Visit>, v: Visit)
    requires AllComplete(visits) && v in visits
    ensures |v.details| >= 4 && v.details[1] in AgentTable(visits)
  {
    AgentTableKeys(visits);
    var j :| 0 <= j < |visits| && visits[j] == v;
  }

  lemma AuthoredEmailsInTable(files: seq<string>, repoHistory: map<string, map<string, seq<string>>>, orders: seq<seq<string>>)
    requires WellOrdered(files, repoHistory, orders) && Complete(files, repoHistory)
    requires AllComplete(Visits(files, repoHistory, orders))
    ensures AuthorEmails(files, repoHistory) <= AgentTable(Visits(files, repoHistory, orders)).Keys
  {
    VisitsMembers(files, repoHistory, orders);
    var vs := Visits(files, repoHistory, orders);
    forall i, k | 0 <= i < |files| && k in repoHistory[files[i]] ensures repoHistory[files[i]][k][1] in AgentTable(vs) {
      VisitEmailInTable(vs, Visit(files[i], k, repoHistory[files[i]][k]));
    }
  }

  /** The author table is keyed by the addresses of all commits, whatever order they were visited in. */
  lemma AgentTableEmails(files: seq<string>, repoHistory: map<string, map<string, seq<string>>>, orders: seq<seq<string>>)
    requires WellOrdered(files, repoHistory, orders) && Complete(files, repoHistory)
    ensures AllComplete(Visits(files, repoHistory, orders))
    ensures AgentTable(Visits(files, repoHistory, orders)).Keys == AuthorEmails(files, repoHistory)
  {
    VisitsComplete(files, repoHistory, orders);
    TableEmailsAuthored(files, repoHistory, orders);
    AuthoredEmailsInTable(files, repoHistory, orders);
  }

  /** The position of a record kind in the document: objects, then events, then agents. */
  function Rank(n: Node): nat
  {
    if n.Element? && n.name == "object" then 0
    else if n.Element? && n.name == "event" then 1
    else 2
  }

  predicate AllNamed(nodes: seq<Node>, name: string)
  {
    forall i :: 0 <= i < |nodes| ==> nodes[i].Element? && nodes[i].name == name
  }

  /** Counting names over three segments that each carry one distinct name. */
  lemma SegmentCounts(a: seq<Node>, b: seq<Node>, c: seq<Node>)
    requires AllNamed(a, "object") && AllNamed(b, "event") && AllNamed(c, "agent")
    ensures CountNamed(a + b + c, "object") == |a|
    ensures CountNamed(a + b + c, "event") == |b|
    ensures CountNamed(a + b + c, "agent") == |c|
  {
    CountNamedConcat(a, b, "object");
    CountNamedConcat(a + b, c, "object");
    CountNamedConcat(a, b, "event");
    CountNamedConcat(a + b, c, "event");
    CountNamedConcat(a, b, "agent");
    CountNamedConcat(a + b, c, "agent");
    CountNamedUniform(a, "object", "event");
    CountNamedUniform(a, "object", "agent");
    CountNamedUniform(b, "event", "object");
    CountNamedUniform(b, "event", "agent");
    CountNamedUniform(c, "agent", "object");
    CountNamedUniform(c, "agent", "event");
  }

  /** Three such segments, concatenated, are ordered by rank. */
  lemma SegmentOrder(a: seq<Node>, b: seq<Node>, c: seq<Node>)
    requires AllNamed(a, "object") && AllNamed(b, "event") && AllNamed(c, "agent")
    ensures forall i, j :: 0 <= i < j < |a + b + c| ==> Rank((a + b + c)[i]) <= Rank((a + b + c)[j])
  {
    var s := a + b + c;
    forall i | 0 <= i < |s|
      ensures Rank(s[i]) == if i < |a| then 0 else if i < |a| + |b| then 1 else 2
    {
      if i < |a| {
        assert s[i] == a[i];
      } else if i < |a| + |b| {
        assert s[i] == b[i - |a|];
      } else {
        assert s[i] == c[i - |a| - |b|];
      }
    }
  }

  lemma DocumentChildren(files: seq<string>, repoHistory: map<string, map<string, seq<string>>>, md5: string -> string,
                         orders: seq<seq<string>>, agentOrder: seq<string>)
    requires WellOrdered(files, repoHistory, orders)
    requires AllComplete(Visits(files, repoHistory, orders))
    requires IsEnumeration(agentOrder, AgentTable(Visits(files, repoHistory, orders)).Keys)
    ensures var vs := Visits(files, repoHistory, orders);
      Document(files, repoHistory, md5, orders, agentOrder).children == Objects(files, md5) + Events(vs) + Agents(AgentTable(vs), agentOrder)
  {
  }

  lemma DocumentSegments(files: seq<string>, repoHistory: map<string, map<string, seq<string>>>, md5: string -> string,
                         orders: seq<seq<string>>, agentOrder: seq<string>)
    requires WellOrdered(files, repoHistory, orders)
    requires AllComplete(Visits(files, repoHistory, orders))
    requires IsEnumeration(agentOrder, AgentTable(Visits(files, repoHistory, orders)).Keys)
    ensures var vs := Visits(files, repoHistory, orders);
      var doc := Document(files, repoHistory, md5, orders, agentOrder);
      doc.Element? && doc.namespace == PremisNs && doc.name == "premis" &&
      doc.children == Objects(files, md5) + Events(vs) + Agents(AgentTable(vs), agentOrder) &&
      AllNamed(Objects(files, md5), "object") && AllNamed(Events(vs), "event") &&
      AllNamed(Agents(AgentTable(vs), agentOrder), "agent")
  {
  }

  /**
   * The `premis` root holds one `object` per index entry, one `event` per
   * stored commit and one `agent` per distinct author address, and every
   * object comes before every event, which comes before every agent.
   */
  lemma DocumentLayout(files: seq<string>, repoHistory: map<string, map<string, seq<string>>>, md5: string -> string,
                       orders: seq<seq<string>>, agentOrder: seq<string>)
    requires WellOrdered(files, repoHistory, orders) && Complete(files, repoHistory)
    requires AllComplete(Visits(files, repoHistory, orders))
    requires IsEnumeration(agentOrder, AgentTable(Visits(files, repoHistory, orders)).Keys)
    ensures var doc := Document(files, repoHistory, md5, orders, agentOrder);
      doc.Element? && doc.namespace == PremisNs && doc.name == "premis" &&
      CountNamed(doc.children, "object") == |files| &&
      CountNamed(doc.children, "event") == Commits(files, repoHistory) &&
      CountNamed(doc.children, "agent") == |AuthorEmails(files, repoHistory)| &&
      forall i, j :: 0 <= i < j < |doc.children| ==> Rank(doc.children[i]) <= Rank(doc.children[j])
  {
    var vs := Visits(files, repoHistory, orders);
    var table := AgentTable(vs);
    DocumentSegments(files, repoHistory, md5, orders, agentOrder);
    SegmentCounts(Objects(files, md5), Events(vs), Agents(table, agentOrder));
    SegmentOrder(Objects(files, md5), Events(vs), Agents(table, agentOrder));
    VisitsCount(files, repoHistory, orders);
    AgentTableEmails(files, repoHistory, orders);
    EnumerationSize(agentOrder, table.Keys);
  }

  lemma ObjectsRecords(files: seq<string>, md5: string -> string)
    ensures forall i :: 0 <= i < |files| ==> ReadObject(Objects(files, md5)[i]) == Some(ObjectRecord("URI", files[i], "MD5", md5(files[i])))
  {
    forall i | 0 <= i < |files| ensures ReadObject(Objects(files, md5)[i]) == Some(ObjectRecord("URI", files[i], "MD5", md5(files[i]))) {
      ObjectRoundTrip(files[i], md5(files[i]));
    }
  }

  /** The record a consumer should read back for one iteration of the event loop. */
  function CommitRecord(v: Visit): EventRecord
    requires |v.details| >= 4
  {
    EventRecord("SHA-1", v.hash, "Git commit", v.details[3], v.details[2], "URI", v.path, "Email address", v.details[1])
  }

  /** From position `offset` on, `c` holds the event record of each iteration of `visits`, in order. */
  predicate EventRecordsAt(c: seq<Node>, offset: nat, visits: seq<Visit>)
    requires AllComplete(visits)
  {
    offset + |visits| <= |c| &&
    forall i :: 0 <= i < |visits| ==> ReadEvent(c[offset + i]) == Some(CommitRecord(visits[i]))
  }

  lemma EventsAfter(c: seq<Node>, a: seq<Node>, b: seq<Node>, vs: seq<Visit>, m: nat)
    requires AllComplete(vs)
    requires c == a + Events(vs) + b && |a| == m
    ensures EventRecordsAt(c, m, vs)
  {
    var events := Events(vs);
    forall i | 0 <= i < |vs| ensures ReadEvent(c[m + i]) == Some(CommitRecord(vs[i])) {
      assert c[m + i] == events[i];
      EventRoundTrip(vs[i].path, vs[i].hash, vs[i].details);
    }
  }

  lemma AgentsRecords(table: map<string, string>, order: seq<string>)
    requires forall e :: e in order ==> e in table
    ensures forall i :: 0 <= i < |order| ==> ReadAgent(Agents(table, order)[i]) == Some(AgentRecord("Email address", order[i], table[order[i]]))
  {
    forall i | 0 <= i < |order| ensures ReadAgent(Agents(table, order)[i]) == Some(AgentRecord("Email address", order[i], table[order[i]])) {
      AgentRoundTrip(order[i], table[order[i]]);
    }
  }

  /** From position `offset` on, `c` holds one agent record per address of `order`, with the name `table` stores for it. */
  predicate AgentRecordsAt(c: seq<Node>, offset: nat, table: map<string, string>, order: seq<string>)
  {
    offset + |order| <= |c| &&
    forall i :: 0 <= i < |order| ==>
      order[i] in table && ReadAgent(c[offset + i]) == Some(AgentRecord("Email address", order[i], table[order[i]]))
  }

  lemma AgentsAfter(c: seq<Node>, a: seq<Node>, b: seq<Node>, table: map<string, string>, order: seq<string>, m: nat, n: nat)
    requires forall e :: e in order ==> e in table
    requires c == a + b + Agents(table, order) && |a| == m && |b| == n
    ensures AgentRecordsAt(c, m + n, table, order)
  {
    var agents := Agents(table, order);
    forall i | 0 <= i < |order|
      ensures order[i] in table && ReadAgent(c[m + n + i]) == Some(AgentRecord("Email address", order[i], table[order[i]]))
    {
      assert c[m + n + i] == agents[i] == AgentElement(order[i], table[order[i]]);
      AgentRoundTrip(order[i], table[order[i]]);
    }
  }

  /** Object i names `files[i]` by URI, with the MD5 digest of that path string. */
  lemma DocumentObjects(files: seq<string>, repoHistory: map<string, map<string, seq<string>>>, md5: string -> string,
                        orders: seq<seq<string>>, agentOrder: seq<string>)
    requires WellOrdered(files, repoHistory, orders)
    requires AllComplete(Visits(files, repoHistory, orders))
    requires IsEnumeration(agentOrder, AgentTable(Visits(files, repoHistory, orders)).Keys)
    ensures var c := Document(files, repoHistory, md5, orders, agentOrder).children;
      |c| == |files| + |Visits(files, repoHistory, orders)| + |agentOrder| &&
      forall i :: 0 <= i < |files| ==> ReadObject(c[i]) == Some(ObjectRecord("URI", files[i], "MD5", md5(files[i])))
  {
    var vs := Visits(files, repoHistory, orders);
    var objects, events, agents := Objects(files, md5), Events(vs), Agents(AgentTable(vs), agentOrder);
    DocumentChildren(files, repoHistory, md5, orders, agentOrder);
    ObjectsRecords(files, md5);
    var c := objects + events + agents;
    forall i | 0 <= i < |files| ensures ReadObject(c[i]) == ReadObject(objects[i]) {
      assert c[i] == objects[i];
    }
  }

  /** Event i carries the hash, subject `l[3]`, date `l[2]`, path and author address `l[1]` of iteration i of the event loop. */
  lemma DocumentEvents(files: seq<string>, repoHistory: map<string, map<string, seq<string>>>, md5: string -> string,
                       orders: seq<seq<string>>, agentOrder: seq<string>)
    requires WellOrdered(files, repoHistory, orders)
    requires AllComplete(Visits(files, repoHistory, orders))
    requires IsEnumeration(agentOrder, AgentTable(Visits(files, repoHistory, orders)).Keys)
    ensures EventRecordsAt(Document(files, repoHistory, md5, orders, agentOrder).children, |files|, Visits(files, repoHistory, orders))
  {
    var vs := Visits(files, repoHistory, orders);
    DocumentChildren(files, repoHistory, md5, orders, agentOrder);
    EventsAfter(Document(files, repoHistory, md5, orders, agentOrder).children, Objects(files, md5), Agents(AgentTable(vs), agentOrder), vs, |files|);
  }

  /** Agent i pairs the i-th address of the author table with the name stored for it. */
  lemma DocumentAgents(files: seq<string>, repoHistory: map<string, map<string, seq<string>>>, md5: string -> string,
                       orders: seq<seq<string>>, agentOrder: seq<string>)
    requires WellOrdered(files, repoHistory, orders)
    requires AllComplete(Visits(files, repoHistory, orders))
    requires IsEnumeration(agentOrder, AgentTable(Visits(files, repoHistory, orders)).Keys)
    ensures var vs := Visits(files, repoHistory, orders);
      AgentRecordsAt(Document(files, repoHistory, md5, orders, agentOrder).children, |files| + |vs|, AgentTable(vs), agentOrder)
  {
    var vs := Visits(files, repoHistory, orders);
    var table := AgentTable(vs);
    var c := Document(files, repoHistory, md5, orders, agentOrder).children;
    DocumentChildren(files, repoHistory, md5, orders, agentOrder);
    assert forall e :: e in agentOrder ==> e in table;
    AgentsAfter(c, Objects(files, md5), Events(vs), table, agentOrder, |files|, |vs|);
  }

  /**
   * Links between the records: every event links to a tracked path and to
   * an address that has its agent record, and no address has two agent records.
   */
  lemma DocumentLinks(files: seq<string>, repoHistory: map<string, map<string, seq<string>>>,
                      orders: seq<seq<string>>, agentOrder: seq<string>)
    requires WellOrdered(files, repoHistory, orders)
    requires AllComplete(Visits(files, repoHistory, orders))
    requires IsEnumeration(agentOrder, AgentTable(Visits(files, repoHistory, orders)).Keys)
    ensures var vs := Visits(files, repoHistory, orders);
      (forall i :: 0 <= i < |vs| ==> vs[i].path in files && vs[i].details[1] in agentOrder) &&
      (forall i, j :: 0 <= i < j < |agentOrder| ==> agentOrder[i] != agentOrder[j])
  {
    var vs := Visits(files, repoHistory, orders);
    VisitsMembers(files, repoHistory, orders);
    AgentTableKeys(vs);
    forall i | 0 <= i < |vs| ensures vs[i].path in files && vs[i].details[1] in agentOrder {
      assert vs[i] in vs;
      assert vs[i].details[1] in AgentTable(vs);
    }
  }
}
