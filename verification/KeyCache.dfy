/**
 API keys (app/auth.py) and the operations that take them away (app/services/tenants.py):
 the lookup that a prefix narrows, and the cache in front of it. Each operation is one
 step here; `KeyRaces` lets them interleave.

 A digest is represented by the key it is taken of, so that digests are equal exactly
 when keys are.
 */
module KeyCache {
  import opened Wrappers

  const KEY_PREFIX_CHARS: nat := 11

  datatype Digest = Sha256(raw: string)

  function PrefixOf(raw: string): string {
    if |raw| <= KEY_PREFIX_CHARS then raw else raw[..KEY_PREFIX_CHARS]
  }

  datatype KeyRow = KeyRow(digest: Digest, prefix: string, client: nat, active: bool)

  datatype Client = Client(name: string, status: string)

  datatype Db = Db(rows: seq<KeyRow>, clients: map<nat, Client>)

  datatype Tenant = Tenant(client: nat, name: string)

  datatype Answer = NoKey | Inactive(status: string) | Known(tenant: Tenant)

  // ------------------------------------------------------------------- the lookup

  /** What one row says to a presented key. */
  function AnswerOf(db: Db, row: KeyRow): Answer
    requires row.client in db.clients
  {
    if db.clients[row.client].status != "active" then Inactive(db.clients[row.client].status)
    else Known(Tenant(row.client, db.clients[row.client].name))
  }

  predicate IsFor(db: Db, row: KeyRow, digest: Digest) {
    row.active && row.client in db.clients && row.digest == digest
  }

  /** The reference: all active keys are compared by digest. */
  function Scan(db: Db, rows: seq<KeyRow>, digest: Digest): Answer {
    if rows == [] then NoKey
    else if IsFor(db, rows[0], digest) then AnswerOf(db, rows[0])
    else Scan(db, rows[1..], digest)
  }

  /** Keys are stored with the prefix of the key, once each. */
  ghost predicate WellKept(db: Db) {
    && (forall i :: 0 <= i < |db.rows| ==> db.rows[i].prefix == PrefixOf(db.rows[i].digest.raw))
    && (forall i, j :: 0 <= i < j < |db.rows| ==> db.rows[i].digest != db.rows[j].digest)
  }

  /** The key opens the door to this client at present. */
  ghost predicate Authorised(db: Db, digest: Digest, client: nat) {
    exists i :: 0 <= i < |db.rows| && IsFor(db, db.rows[i], digest) && db.rows[i].client == client
                && db.clients[client].status == "active"
  }

  lemma {:induction false} ScanFinds(db: Db, rows: seq<KeyRow>, digest: Digest, i: nat)
    requires i < |rows| && IsFor(db, rows[i], digest)
    requires forall i, j :: 0 <= i < j < |rows| ==> rows[i].digest != rows[j].digest
    ensures Scan(db, rows, digest) == AnswerOf(db, rows[i])
  {
    if i > 0 {
      assert rows[0].digest != rows[i].digest;
      ScanFinds(db, rows[1..], digest, i - 1);
    }
  }

  lemma {:induction false} ScanMisses(db: Db, rows: seq<KeyRow>, digest: Digest)
    requires forall i :: 0 <= i < |rows| ==> !IsFor(db, rows[i], digest)
    ensures Scan(db, rows, digest) == NoKey
  {
    if rows != [] { ScanMisses(db, rows[1..], digest); }
  }

  /** The scan lets a key in exactly when it is an active key of an active client. */
  lemma ScanIsAuthority(db: Db, digest: Digest)
    requires WellKept(db)
    ensures forall client :: Authorised(db, digest, client) <==>
                               Scan(db, db.rows, digest).Known? && Scan(db, db.rows, digest).tenant.client == client
  {
    if i :| 0 <= i < |db.rows| && IsFor(db, db.rows[i], digest) {
      ScanFinds(db, db.rows, digest, i);
    } else {
      ScanMisses(db, db.rows, digest);
    }
  }

  /** The i-th row is an active one of a known client for this key. */
  predicate IsActiveRow(db: Db, i: nat, digest: Digest) {
    i < |db.rows| && db.rows[i].active && db.rows[i].digest == digest && db.rows[i].client in db.clients
  }

  /** Which of the three answers a key gets, and with what in it. */
  lemma AnswerIff(db: Db, digest: Digest)
    requires WellKept(db)
    ensures Scan(db, db.rows, digest).NoKey? <==> forall i: nat :: !IsActiveRow(db, i, digest)
    ensures forall i: nat :: IsActiveRow(db, i, digest) ==>
              var c := db.clients[db.rows[i].client];
              Scan(db, db.rows, digest) ==
              if c.status == "active" then Known(Tenant(db.rows[i].client, c.name)) else Inactive(c.status)
  {
    forall i: nat | IsActiveRow(db, i, digest)
      ensures Scan(db, db.rows, digest) == AnswerOf(db, db.rows[i])
    {
      ScanFinds(db, db.rows, digest, i);
    }
    if forall i: nat :: !IsActiveRow(db, i, digest) {
      forall i | 0 <= i < |db.rows| ensures !IsFor(db, db.rows[i], digest) { assert !IsActiveRow(db, i, digest); }
      ScanMisses(db, db.rows, digest);
    }
  }

  // -------------------------------------------------------------------- the class

  datatype Entry = Entry(tenant: Tenant, expires: int)

  /** A cached tenant may have an old name, but the key still opens the same door. */
  ghost predicate CacheIsCurrent(db: Db, cache: map<Digest, Entry>) {
    forall d :: d in cache ==> Authorised(db, d, cache[d].tenant.client)
  }

  predicate SameTenant(a: Answer, b: Answer) {
    match (a, b)
    case (Known(s), Known(t)) => s.client == t.client
    case _ => a == b
  }

  class Auth {
    var rows: seq<KeyRow>
    var clients: map<nat, Client>
    var cache: map<Digest, Entry>
    const ttl: int

    function Now(): Db
      reads this
    {
      Db(rows, clients)
    }

    ghost predicate Valid()
      reads this
    {
      WellKept(Now()) && CacheIsCurrent(Now(), cache)
    }

    constructor (ttl: int)
      ensures Valid() && rows == [] && clients == map[] && cache == map[] && this.ttl == ttl
    {
      this.ttl := ttl;
      rows, clients, cache := [], map[], map[];
    }

    method CacheGet(digest: Digest, now: int) returns (tenant: Option<Tenant>)
      modifies this`cache
      ensures tenant == if digest in old(cache) && now < old(cache)[digest].expires
                        then Some(old(cache)[digest].tenant) else None
      ensures cache == if digest in old(cache) && now >= old(cache)[digest].expires
                       then old(cache) - {digest} else old(cache)
    {
      if digest !in cache { return None; }
      if now >= cache[digest].expires {
        cache := cache - {digest};
        return None;
      }
      tenant := Some(cache[digest].tenant);
    }

    /** The key's answer, from the cache or the database: but for the name of a
        client, the cache cannot be noticed. */
    method ResolveApiKey(raw: string, now: int) returns (answer: Answer)
      requires Valid()
      modifies this`cache
      ensures Valid() && SameTenant(answer, Scan(Now(), rows, Sha256(raw)))
      ensures answer.Known? ==> Authorised(Now(), Sha256(raw), answer.tenant.client)
      ensures answer.Known? && ttl > 0 ==>
                Sha256(raw) in cache && cache[Sha256(raw)].tenant == answer.tenant && now < cache[Sha256(raw)].expires
      ensures forall d :: d in cache ==>
                || (d in old(cache) && cache[d] == old(cache)[d])
                || (d == Sha256(raw) && answer.Known? && cache[d] == Entry(answer.tenant, now + ttl))
      ensures forall d :: d in old(cache) && d != Sha256(raw) ==> d in cache
    {
      var digest := Sha256(raw);
      ScanIsAuthority(Now(), digest);
      var cached := CacheGet(digest, now);
      if cached.Some? { return Known(cached.value); }
      answer := LookUp(raw);
      if answer.Known? { cache := cache[digest := Entry(answer.tenant, now + ttl)]; }
    }

    /** Only rows with the key's prefix are read. */
    method LookUp(raw: string) returns (answer: Answer)
      requires WellKept(Now())
      ensures answer == Scan(Now(), rows, Sha256(raw))
    {
      var digest, prefix := Sha256(raw), PrefixOf(raw);
      for i := 0 to |rows|
        invariant forall j :: 0 <= j < i ==> !IsFor(Now(), rows[j], digest)
      {
        if rows[i].prefix == prefix && rows[i].active && rows[i].client in clients {
          if rows[i].digest == digest {
            ScanFinds(Now(), rows, digest, i);
            return AnswerOf(Now(), rows[i]);
          }
        }
      }
      ScanMisses(Now(), rows, digest);
      answer := NoKey;
    }

    /** A fresh key, in the cases of approval and of a further key. */
    method IssueKey(client: nat, raw: string)
      requires Valid() && forall i :: 0 <= i < |rows| ==> rows[i].digest != Sha256(raw)
      requires client in clients
      modifies this`rows
      ensures Valid() && rows == old(rows) + [KeyRow(Sha256(raw), PrefixOf(raw), client, true)]
      ensures clients[client].status == "active" ==> Authorised(Now(), Sha256(raw), client)
    {
      ghost var before := Now();
      rows := rows + [KeyRow(Sha256(raw), PrefixOf(raw), client, true)];
      assert rows[|rows| - 1] == KeyRow(Sha256(raw), PrefixOf(raw), client, true);
      forall d | d in cache ensures Authorised(Now(), d, cache[d].tenant.client) {
        StillAuthorised(before, Now(), d, cache[d].tenant.client);
      }
    }

    method RevokeKey(i: nat)
      requires Valid() && i < |rows|
      modifies this`rows, this`cache
      ensures Valid() && rows == old(rows)[i := old(rows)[i].(active := false)]
      ensures cache == old(cache) - {rows[i].digest}
      ensures forall client :: !Authorised(Now(), rows[i].digest, client)
    {
      ghost var before := Now();
      rows := rows[i := rows[i].(active := false)];
      cache := cache - {rows[i].digest};
      forall d | d in cache ensures Authorised(Now(), d, cache[d].tenant.client) {
        StillAuthorised(before, Now(), d, cache[d].tenant.client);
      }
    }

    /** Suspension and rejection. */
    method Deactivate(client: nat, status: string)
      requires Valid() && client in clients && status != "active"
      modifies this`clients, this`cache
      ensures Valid() && rows == old(rows) && cache == map[]
      ensures clients == old(clients)[client := old(clients)[client].(status := status)]
      ensures forall d :: !Authorised(Now(), d, client)
    {
      clients := clients[client := clients[client].(status := status)];
      cache := map[];
    }

    method ReactivateClient(client: nat)
      requires Valid() && client in clients
      modifies this`clients
      ensures Valid() && clients == old(clients)[client := old(clients)[client].(status := "active")]
    {
      ghost var before := Now();
      clients := clients[client := clients[client].(status := "active")];
      forall d | d in cache ensures Authorised(Now(), d, cache[d].tenant.client) {
        StillAuthorised(before, Now(), d, cache[d].tenant.client);
      }
    }

    /** A new name, which leaves the cache alone. */
    method RenameClient(client: nat, name: string)
      requires Valid() && client in clients
      modifies this`clients
      ensures Valid() && clients == old(clients)[client := old(clients)[client].(name := name)]
    {
      ghost var before := Now();
      clients := clients[client := clients[client].(name := name)];
      forall d | d in cache ensures Authorised(Now(), d, cache[d].tenant.client) {
        StillAuthorised(before, Now(), d, cache[d].tenant.client);
      }
    }

    /** The client's keys go with it. */
    method DeleteClient(client: nat)
      requires Valid()
      modifies this`rows, this`clients, this`cache
      ensures Valid() && clients == old(clients) - {client} && cache == map[]
      ensures forall d :: !Authorised(Now(), d, client)
      ensures forall row :: row in rows <==> row in old(rows) && row.client != client
    {
      var kept := [];
      for i := 0 to |rows|
        invariant forall row :: row in kept <==> row in rows[..i] && row.client != client
        invariant forall j :: 0 <= j < |kept| ==> kept[j] in rows[..i]
        invariant forall j, k :: 0 <= j < k < |kept| ==> kept[j].digest != kept[k].digest
      {
        assert rows[..i + 1] == rows[..i] + [rows[i]];
        if rows[i].client != client {
          assert forall j :: 0 <= j < |kept| ==> kept[j].digest != rows[i].digest;
          kept := kept + [rows[i]];
        }
      }
      assert rows[..|rows|] == rows;
      rows, clients, cache := kept, clients - {client}, map[];
    }
  }

  /** A key whose row and client are as good as before still opens its door. */
  lemma StillAuthorised(before: Db, after: Db, digest: Digest, client: nat)
    requires Authorised(before, digest, client)
    requires forall i :: 0 <= i < |before.rows| && before.rows[i].digest == digest ==>
              i < |after.rows| && after.rows[i] == before.rows[i]
    requires forall c :: c in before.clients && before.clients[c].status == "active" ==>
              c in after.clients && after.clients[c].status == "active"
    ensures Authorised(after, digest, client)
  {
  }
}
