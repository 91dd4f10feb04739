/**
 The lease table of the database (dhcp/storage.py): one row for each client, and a unique
 address column (database/models/dhcp_lease.py).
 */
module DhcpStorage {
  import opened Bytes
  import opened ClientIds
  import opened LeaseBook

  /** The commit is refused when another client's row has the address. */
  predicate Conflicts(rows: Book, c: string, ip: Address) {
    exists d :: d in rows && d != c && rows[d].ip == ip
  }

  function Saved(rows: Book, c: string, b: Binding): Option<Book> {
    if Conflicts(rows, c, b.ip) then None else Some(rows[c := b])
  }

  lemma SavedKeepsUnique(rows: Book, c: string, b: Binding)
    requires Injective(rows) && Saved(rows, c, b).Some?
    ensures Injective(Saved(rows, c, b).value)
  {
  }

  class DHCPLeaseStorage {
    var rows: Book

    ghost predicate Valid()
      reads this
    {
      Injective(rows)
    }

    constructor ()
      ensures Valid() && rows == map[]
    {
      rows := map[];
    }

    method Save(clientId: string, lease: Binding) returns (saved: bool)
      requires Valid()
      modifies this
      ensures Valid()
      ensures saved <==> Strip(clientId) != "" && !Conflicts(old(rows), Strip(clientId), lease.ip)
      ensures rows == if saved then old(rows)[Strip(clientId) := lease] else old(rows)
    {
      var c := Strip(clientId);
      if c == "" || Conflicts(rows, c, lease.ip) {
        return false;
      }
      SavedKeepsUnique(rows, c, lease);
      rows := rows[c := lease];
      return true;
    }

    method Delete(clientId: string) returns (r: Option<bool>)
      requires Valid()
      modifies this
      ensures Valid()
      ensures r == if Strip(clientId) == "" then None else Some(Strip(clientId) in old(rows))
      ensures rows == if r.None? then old(rows) else old(rows) - {Strip(clientId)}
    {
      var c := Strip(clientId);
      if c == "" {
        return None;
      }
      r := Some(c in rows);
      rows := rows - {c};
    }
  }
}
