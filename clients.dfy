/** The client directory: the search filter of the Clients page and the
    list update after a client is deleted. */
module Clients {
  import opened Wrappers
  import opened Seqs
  import opened Text

  /** A client record; the optional fields may be `null` on the server. */
  datatype Client = Client(
    id: int,
    name: string,
    company: Option<string>,
    phone: Option<string>,
    email: Option<string>,
    address: Option<string>)

  /** A present, non-empty optional text (JavaScript truthiness). */
  predicate Present(s: Option<string>) {
    s.Some? && s.value != ""
  }

  /** The search predicate: the lower-cased term in the lower-cased name or
      company, or the term as typed in the phone number. */
  predicate Matches(c: Client, term: string) {
    var t := Lower(term);
    Includes(Lower(c.name), t)
    || (Present(c.company) && Includes(Lower(c.company.value), t))
    || (Present(c.phone) && Includes(c.phone.value, term))
  }

  function MatchesTerm(term: string): Client -> bool {
    (c: Client) => Matches(c, term)
  }

  /** `filteredClients`. */
  function FilteredClients(clients: seq<Client>, term: string): (r: seq<Client>)
    ensures forall i :: 0 <= i < |r| ==> Matches(r[i], term)
    ensures forall c :: c in r <==> c in clients && Matches(c, term)
  {
    var r := Filter(clients, MatchesTerm(term));
    forall c
      ensures c in r <==> c in clients && Matches(c, term)
    {
      FilterMembership(clients, MatchesTerm(term), c);
    }
    r
  }

  /** The empty search term matches every client, so the filter keeps the
      whole list in order. */
  lemma EmptyTermKeepsAll(clients: seq<Client>)
    ensures FilteredClients(clients, "") == clients
  {
    forall i | 0 <= i < |clients|
      ensures MatchesTerm("")(clients[i])
    {
      assert OccursAt(Lower(clients[i].name), Lower(""), 0);
    }
  }

  /** Filtering keeps relative order: filtering a concatenation is the
      concatenation of the filtered parts. */
  lemma FilteredKeepsOrder(a: seq<Client>, b: seq<Client>, term: string)
    ensures FilteredClients(a + b, term) == FilteredClients(a, term) + FilteredClients(b, term)
  {
    FilterAppend(a, b, MatchesTerm(term));
  }

  function HasOtherId(id: int): Client -> bool {
    (c: Client) => c.id != id
  }

  /** `clients.filter(c => c.id !== id)`: every client with that id goes,
      every other client stays, in order. */
  function WithoutClient(clients: seq<Client>, id: int): (r: seq<Client>)
    ensures forall c :: c in r <==> c in clients && c.id != id
    ensures forall c: Client :: c.id != id ==> multiset(r)[c] == multiset(clients)[c]
    ensures |r| <= |clients|
  {
    var r := Filter(clients, HasOtherId(id));
    forall c
      ensures c in r <==> c in clients && c.id != id
    {
      FilterMembership(clients, HasOtherId(id), c);
    }
    forall c: Client | c.id != id
      ensures multiset(r)[c] == multiset(clients)[c]
    {
      FilterCounts(clients, HasOtherId(id), c);
    }
    r
  }

  /** Deleting an id nobody has changes nothing. */
  lemma DeleteUnknownId(clients: seq<Client>, id: int)
    requires forall i :: 0 <= i < |clients| ==> clients[i].id != id
    ensures WithoutClient(clients, id) == clients
  {
  }

  /** The Clients page's list of clients. */
  class ClientDirectory {
    var clients: seq<Client>

    constructor (clients: seq<Client>)
      ensures this.clients == clients
    {
      this.clients := clients;
    }

    /** `handleDelete(id)`: `confirmed` is the user's answer to the confirm
        dialog and `deleted` whether the DELETE request succeeded; only when
        both hold is the client dropped from the list. */
    method HandleDelete(id: int, confirmed: bool, deleted: bool)
      modifies this
      ensures confirmed && deleted ==> clients == WithoutClient(old(clients), id)
      ensures !(confirmed && deleted) ==> clients == old(clients)
    {
      if confirmed && deleted {
        clients := WithoutClient(clients, id);
      }
    }
  }
}
