/**
 * The three PREMIS v2 record shapes gitlog2premis_sample.py appends under its
 * `premis` root: `object` (one tracked file), `event` (one commit of one file)
 * and `agent` (one author). Element names are the script's own, including
 * `linkingAgentdentifier` and `agentIdentifer` as it spells them.
 */
module PremisRecords {
  import opened Wrappers
  import opened Xml

  const PremisNs := "info:lc/xmlns/premis-v2"

  /** An element in the PREMIS namespace holding one text node. */
  function Leaf(name: string, value: string): Node
  {
    Element(PremisNs, name, [Text(value)])
  }

  /** An element in the PREMIS namespace holding child elements. */
  function Branch(name: string, children: seq<Node>): Node
  {
    Element(PremisNs, name, children)
  }

  /** The `object` record of one tracked path and the digest written for it. */
  function ObjectElement(path: string, digest: string): Node
  {
    Branch("object", [
      Branch("objectIdentifier", [
        Leaf("objectIdentifierType", "URI"),
        Leaf("objectIdentifierValue", path)]),
      Branch("objectCharacteristics", [
        Branch("fixity", [
          Leaf("messageDigestAlgorithm", "MD5"),
          Leaf("messageDigest", digest)])])])
  }

  /**
   * The `event` record of commit `hash` of `path`, whose stored fields are
   * `details == [name, email, date, subject, ...]`. The script appends
   * `linkingObjectIdentifierType` to the event and then to
   * `linkingObjectIdentifier`; a DOM node has one parent, so the second
   * append moves it and it ends up under `linkingObjectIdentifier` only.
   */
  function EventElement(path: string, hash: string, details: seq<string>): Node
    requires |details| >= 4
  {
    Branch("event", [
      Branch("eventIdentifier", [
        Leaf("eventIdentifierType", "SHA-1"),
        Leaf("eventIdentifierValue", hash)]),
      Leaf("eventType", "Git commit"),
      Leaf("eventDetail", details[3]),
      Leaf("eventDateTime", details[2]),
      Branch("linkingObjectIdentifier", [
        Leaf("linkingObjectIdentifierType", "URI"),
        Leaf("linkingObjectIdentifierValue", path)]),
      Branch("linkingAgentdentifier", [
        Leaf("linkingAgentIdentifierType", "Email address"),
        Leaf("linkingAgentIdentifierValue", details[1])])])
  }

  /** The `agent` record of one author address and the name stored for it. */
  function AgentElement(email: string, name: string): Node
  {
    Branch("agent", [
      Branch("agentIdentifer", [
        Leaf("agentIdentifierType", "Email address"),
        Leaf("agentIdentifierValue", email)]),
      Leaf("agentName", name)])
  }

  /** What a consumer reads back out of an `object` element. */
  datatype ObjectRecord = ObjectRecord(identifierType: string, identifier: string, algorithm: string, digest: string)

  datatype EventRecord = EventRecord(
    identifierType: string, identifier: string, eventType: string, detail: string, dateTime: string,
    objectIdentifierType: string, objectIdentifier: string, agentIdentifierType: string, agentIdentifier: string)

  datatype AgentRecord = AgentRecord(identifierType: string, identifier: string, name: string)

  function ReadObject(n: Node): Option<ObjectRecord>
  {
    if !(n.Element? && n.name == "object") then None
    else
      var idType := ValueAt(n, ["objectIdentifier", "objectIdentifierType"]);
      var id := ValueAt(n, ["objectIdentifier", "objectIdentifierValue"]);
      var alg := ValueAt(n, ["objectCharacteristics", "fixity", "messageDigestAlgorithm"]);
      var digest := ValueAt(n, ["objectCharacteristics", "fixity", "messageDigest"]);
      if idType.Some? && id.Some? && alg.Some? && digest.Some?
      then Some(ObjectRecord(idType.value, id.value, alg.value, digest.value))
      else None
  }

  function ReadEvent(n: Node): Option<EventRecord>
  {
    if !(n.Element? && n.name == "event") then None
    else
      var idType := ValueAt(n, ["eventIdentifier", "eventIdentifierType"]);
      var id := ValueAt(n, ["eventIdentifier", "eventIdentifierValue"]);
      var kind := ValueAt(n, ["eventType"]);
      var detail := ValueAt(n, ["eventDetail"]);
      var date := ValueAt(n, ["eventDateTime"]);
      var objType := ValueAt(n, ["linkingObjectIdentifier", "linkingObjectIdentifierType"]);
      var obj := ValueAt(n, ["linkingObjectIdentifier", "linkingObjectIdentifierValue"]);
      var agentType := ValueAt(n, ["linkingAgentdentifier", "linkingAgentIdentifierType"]);
      var agent := ValueAt(n, ["linkingAgentdentifier", "linkingAgentIdentifierValue"]);
      if idType.Some? && id.Some? && kind.Some? && detail.Some? && date.Some? &&
         objType.Some? && obj.Some? && agentType.Some? && agent.Some?
      then Some(EventRecord(idType.value, id.value, kind.value, detail.value, date.value,
                            objType.value, obj.value, agentType.value, agent.value))
      else None
  }

  function ReadAgent(n: Node): Option<AgentRecord>
  {
    if !(n.Element? && n.name == "agent") then None
    else
      var idType := ValueAt(n, ["agentIdentifer", "agentIdentifierType"]);
      var id := ValueAt(n, ["agentIdentifer", "agentIdentifierValue"]);
      var name := ValueAt(n, ["agentName"]);
      if idType.Some? && id.Some? && name.Some?
      then Some(AgentRecord(idType.value, id.value, name.value))
      else None
  }

  lemma ObjectIdentifierValues(path: string, digest: string)
    ensures var n := ObjectElement(path, digest);
      ValueAt(n, ["objectIdentifier", "objectIdentifierType"]) == Some("URI") &&
      ValueAt(n, ["objectIdentifier", "objectIdentifierValue"]) == Some(path)
  {
    var n := ObjectElement(path, digest);
    var id := n.children[0];
    ChildNamedAt(n.children, 0, "objectIdentifier");
    ValueAtTwo(n, "objectIdentifier", "objectIdentifierType", id);
    ValueAtTwo(n, "objectIdentifier", "objectIdentifierValue", id);
    ValueAtOne(id, "objectIdentifierType", id.children[0]);
    ChildNamedAt(id.children, 1, "objectIdentifierValue");
    ValueAtOne(id, "objectIdentifierValue", id.children[1]);
  }

  lemma ObjectFixityValues(path: string, digest: string)
    ensures var n := ObjectElement(path, digest);
      ValueAt(n, ["objectCharacteristics", "fixity", "messageDigestAlgorithm"]) == Some("MD5") &&
      ValueAt(n, ["objectCharacteristics", "fixity", "messageDigest"]) == Some(digest)
  {
    var n := ObjectElement(path, digest);
    var chars := n.children[1];
    var fixity := chars.children[0];
    ChildNamedAt(n.children, 1, "objectCharacteristics");
    ValueAtThree(n, "objectCharacteristics", "fixity", "messageDigestAlgorithm", chars);
    ValueAtThree(n, "objectCharacteristics", "fixity", "messageDigest", chars);
    ChildNamedAt(chars.children, 0, "fixity");
    ValueAtTwo(chars, "fixity", "messageDigestAlgorithm", fixity);
    ValueAtTwo(chars, "fixity", "messageDigest", fixity);
    ValueAtOne(fixity, "messageDigestAlgorithm", fixity.children[0]);
    ChildNamedAt(fixity.children, 1, "messageDigest");
    ValueAtOne(fixity, "messageDigest", fixity.children[1]);
  }

  /** An `object` identifies its file by URI and carries the digest it was given, labelled MD5. */
  lemma ObjectRoundTrip(path: string, digest: string)
    ensures ReadObject(ObjectElement(path, digest)) == Some(ObjectRecord("URI", path, "MD5", digest))
  {
    ObjectIdentifierValues(path, digest);
    ObjectFixityValues(path, digest);
  }

  lemma EventIdentifierValues(path: string, hash: string, details: seq<string>)
    requires |details| >= 4
    ensures var n := EventElement(path, hash, details);
      ValueAt(n, ["eventIdentifier", "eventIdentifierType"]) == Some("SHA-1") &&
      ValueAt(n, ["eventIdentifier", "eventIdentifierValue"]) == Some(hash)
  {
    var n := EventElement(path, hash, details);
    var id := n.children[0];
    ChildNamedAt(n.children, 0, "eventIdentifier");
    ValueAtTwo(n, "eventIdentifier", "eventIdentifierType", id);
    ValueAtTwo(n, "eventIdentifier", "eventIdentifierValue", id);
    ValueAtOne(id, "eventIdentifierType", id.children[0]);
    ChildNamedAt(id.children, 1, "eventIdentifierValue");
    ValueAtOne(id, "eventIdentifierValue", id.children[1]);
  }

  lemma EventTextValues(path: string, hash: string, details: seq<string>)
    requires |details| >= 4
    ensures var n := EventElement(path, hash, details);
      ValueAt(n, ["eventType"]) == Some("Git commit") &&
      ValueAt(n, ["eventDetail"]) == Some(details[3])
  {
    var n := EventElement(path, hash, details);
    var c := n.children;
    ChildNamedAt(c, 1, "eventType");
    ChildNamedAt(c, 2, "eventDetail");
    ValueAtOne(n, "eventType", c[1]);
    ValueAtOne(n, "eventDetail", c[2]);
  }

  lemma EventDateValue(path: string, hash: string, details: seq<string>)
    requires |details| >= 4
    ensures ValueAt(EventElement(path, hash, details), ["eventDateTime"]) == Some(details[2])
  {
    var n := EventElement(path, hash, details);
    var c := n.children;
    assert ChildNamed(c, "eventDateTime") == Some(c[3]) by {
      assert ChildNamed(c[3..], "eventDateTime") == Some(c[3]);
      assert ChildNamed(c[2..], "eventDateTime") == ChildNamed(c[3..], "eventDateTime");
      assert ChildNamed(c[1..], "eventDateTime") == ChildNamed(c[2..], "eventDateTime");
    }
    ValueAtOne(n, "eventDateTime", c[3]);
  }

  lemma EventObjectLinkValues(path: string, hash: string, details: seq<string>)
    requires |details| >= 4
    ensures var n := EventElement(path, hash, details);
      ValueAt(n, ["linkingObjectIdentifier", "linkingObjectIdentifierType"]) == Some("URI") &&
      ValueAt(n, ["linkingObjectIdentifier", "linkingObjectIdentifierValue"]) == Some(path)
  {
    var n := EventElement(path, hash, details);
    var link := n.children[4];
    ChildNamedAt(n.children, 4, "linkingObjectIdentifier");
    ValueAtTwo(n, "linkingObjectIdentifier", "linkingObjectIdentifierType", link);
    ValueAtTwo(n, "linkingObjectIdentifier", "linkingObjectIdentifierValue", link);
    ValueAtOne(link, "linkingObjectIdentifierType", link.children[0]);
    ChildNamedAt(link.children, 1, "linkingObjectIdentifierValue");
    ValueAtOne(link, "linkingObjectIdentifierValue", link.children[1]);
  }

  lemma EventAgentLinkValues(path: string, hash: string, details: seq<string>)
    requires |details| >= 4
    ensures var n := EventElement(path, hash, details);
      ValueAt(n, ["linkingAgentdentifier", "linkingAgentIdentifierType"]) == Some("Email address") &&
      ValueAt(n, ["linkingAgentdentifier", "linkingAgentIdentifierValue"]) == Some(details[1])
  {
    var n := EventElement(path, hash, details);
    var link := n.children[5];
    ChildNamedAt(n.children, 5, "linkingAgentdentifier");
    ValueAtTwo(n, "linkingAgentdentifier", "linkingAgentIdentifierType", link);
    ValueAtTwo(n, "linkingAgentdentifier", "linkingAgentIdentifierValue", link);
    ValueAtOne(link, "linkingAgentIdentifierType", link.children[0]);
    ChildNamedAt(link.children, 1, "linkingAgentIdentifierValue");
    ValueAtOne(link, "linkingAgentIdentifierValue", link.children[1]);
  }

  /**
   * An `event` carries the commit hash as its SHA-1 identifier, the subject
   * `details[3]` as detail, the date `details[2]` as date-time, and links to
   * its file by URI and to the author address `details[1]`.
   */
  lemma EventRoundTrip(path: string, hash: string, details: seq<string>)
    requires |details| >= 4
    ensures ReadEvent(EventElement(path, hash, details)) ==
      Some(EventRecord("SHA-1", hash, "Git commit", details[3], details[2], "URI", path, "Email address", details[1]))
  {
    EventIdentifierValues(path, hash, details);
    EventTextValues(path, hash, details);
    EventDateValue(path, hash, details);
    EventObjectLinkValues(path, hash, details);
    EventAgentLinkValues(path, hash, details);
  }

  /** The re-parented `linkingObjectIdentifierType` is not a direct child of the event. */
  lemma EventTypeReparented(path: string, hash: string, details: seq<string>)
    requires |details| >= 4
    ensures ChildNamed(EventElement(path, hash, details).children, "linkingObjectIdentifierType") == None
  {
    ChildNamedNone(EventElement(path, hash, details).children, "linkingObjectIdentifierType");
  }

  /** An `agent` is identified by its address and named by the name stored for it. */
  lemma AgentRoundTrip(email: string, name: string)
    ensures ReadAgent(AgentElement(email, name)) == Some(AgentRecord("Email address", email, name))
  {
    var n := AgentElement(email, name);
    var id := n.children[0];
    ChildNamedAt(n.children, 0, "agentIdentifer");
    ChildNamedAt(n.children, 1, "agentName");
    ValueAtTwo(n, "agentIdentifer", "agentIdentifierType", id);
    ValueAtTwo(n, "agentIdentifer", "agentIdentifierValue", id);
    ValueAtOne(id, "agentIdentifierType", id.children[0]);
    ChildNamedAt(id.children, 1, "agentIdentifierValue");
    ValueAtOne(id, "agentIdentifierValue", id.children[1]);
    ValueAtOne(n, "agentName", n.children[1]);
  }
}
