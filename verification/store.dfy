/**
 * The persistent store behind the dispatcher: each of its two JSON documents
 * is a mapping from agent identifier to an insertion-ordered list of records.
 * This module is generic in the record type, because the task document and
 * the result document are loaded, extended and saved in exactly the same way.
 */
module Store {

  /** An agent identifier: an opaque, caller-supplied string. */
  type AgentId = string

  /** One JSON document: agent identifier to its records, oldest first. */
  type Log<R> = map<AgentId, seq<R>>

  /**
   * What the backing file holds when it is read. The server's loaders treat
   * a missing file and an unparseable one alike; the model keeps them apart
   * so that the conflation shows in the server's lemmas.
   */
  datatype StoreFile<R> = Missing | Corrupt | Parsed(contents: Log<R>)

  /** Loading never fails: any problem with the file yields the empty mapping. */
  function Load<R>(f: StoreFile<R>): (m: Log<R>)
    ensures f.Parsed? ==> m == f.contents
    ensures !f.Parsed? ==> m == map[]
  {
    match f
    case Parsed(contents) => contents
    case _ => map[]
  }

  /** Saving overwrites the whole document with the given mapping. */
  function Save<R>(m: Log<R>): (f: StoreFile<R>)
    ensures Load(f) == m
  {
    Parsed(m)
  }

  /** The records of one agent; an agent without an entry has none. */
  function Entries<R>(m: Log<R>, agent: AgentId): (rs: seq<R>)
    ensures agent in m ==> rs == m[agent]
    ensures agent !in m ==> rs == []
  {
    if agent in m then m[agent] else []
  }

  /**
   * Creates the agent's list if it has none, then appends one record at its
   * end. Every other agent's list is left as it was.
   */
  function Append<R>(m: Log<R>, agent: AgentId, rec: R): (m': Log<R>)
    ensures m'.Keys == m.Keys + {agent}
    ensures Entries(m', agent) == Entries(m, agent) + [rec]
    ensures forall a :: a != agent ==> Entries(m', a) == Entries(m, a)
  {
    var base := if agent in m then m[agent] else [];
    m[agent := base + [rec]]
  }
}
