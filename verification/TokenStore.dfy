/**
 The file-backed token store.  Rows are only appended or marked revoked; the store is proved
 to behave as a plain table of live tokens.
 */
module TokenStore {
  import opened Wrappers
  import opened Strings

  const PREFIX_LEN: nat := 12

  /** A keyed hash of a token; only its equality matters. */
  datatype Hash = Hmac(token: string)

  datatype Row = Row(agent: string, prefix: string, hash: Hash, revoked: bool, user: string, trustedProxy: bool)

  datatype Resolution = Resolution(agent: string, user: string, trustedProxy: bool)

  datatype MintOptions = MintOptions(agent: string, user: string, trustedProxy: bool, rotate: bool)

  datatype MintError = BlankAgent | TokenExists

  /** A well-formed token: the fixed lead, the kind, and a random suffix. */
  predicate IsToken(t: string) {
    "osk_" <= t && |t| >= PREFIX_LEN
  }

  function Identity(r: Row): Resolution {
    Resolution(r.agent, r.user, r.trustedProxy)
  }

  // ---- the abstract table ----

  /** Which tokens are live, and for whom. */
  type Table = map<string, Resolution>

  predicate Holds(t: Table, agent: string) {
    exists k | k in t :: t[k].agent == agent
  }

  function Without(t: Table, agent: string): Table {
    map k | k in t && t[k].agent != agent :: t[k]
  }

  function TableMint(t: Table, o: MintOptions, token: string): Table {
    Without(t, o.agent)[token := Resolution(o.agent, TrimSpace(o.user), o.trustedProxy)]
  }

  /** Revocation is by agent or by token prefix. */
  function TableRevoke(t: Table, key: string): Table {
    map k | k in t && t[k].agent != key && !(|k| >= PREFIX_LEN && k[..PREFIX_LEN] == key) :: t[k]
  }

  // ---- rows ----

  predicate Active(rows: seq<Row>, i: int) {
    0 <= i < |rows| && !rows[i].revoked
  }

  /** Distinct tokens, recorded prefixes, and at most one active row per agent. */
  predicate ValidRows(rows: seq<Row>) {
    && (forall i :: 0 <= i < |rows| ==> IsToken(rows[i].hash.token) && rows[i].prefix == rows[i].hash.token[..PREFIX_LEN])
    && (forall i, j :: 0 <= i < j < |rows| ==> rows[i].hash != rows[j].hash)
    && (forall i, j :: 0 <= i < j < |rows| && !rows[i].revoked && !rows[j].revoked ==> rows[i].agent != rows[j].agent)
  }

  /** The rows refine the table: active rows are exactly its entries. */
  ghost predicate Refines(rows: seq<Row>, t: Table) {
    && (forall i :: Active(rows, i) ==> rows[i].hash.token in t && t[rows[i].hash.token] == Identity(rows[i]))
    && (forall k :: k in t ==> exists i :: Active(rows, i) && rows[i].hash.token == k)
  }

  /** Nothing is forgotten: rows keep their place, and a revoked row stays revoked. */
  predicate Extends(before: seq<Row>, after: seq<Row>) {
    && |before| <= |after|
    && forall i :: 0 <= i < |before| ==> after[i] == before[i] || after[i] == before[i].(revoked := true)
  }

  class FileStore {
    var rows: seq<Row>
    ghost var table: Table

    ghost predicate Valid()
      reads this
    {
      ValidRows(rows) && Refines(rows, table)
    }

    constructor ()
      ensures Valid() && table == map[]
    {
      rows, table := [], map[];
    }

    /** Mints the given fresh token, or refuses and changes nothing. */
    method MintWith(o: MintOptions, token: string) returns (error: Option<MintError>)
      requires Valid() && IsToken(token)
      requires forall i :: 0 <= i < |rows| ==> rows[i].hash != Hmac(token)
      modifies this
      ensures Valid() && Extends(old(rows), rows)
      ensures error == Some(BlankAgent) <==> TrimSpace(o.agent) == ""
      ensures error == Some(TokenExists) <==> TrimSpace(o.agent) != "" && !o.rotate && Holds(old(table), o.agent)
      ensures table == if error.Some? then old(table) else TableMint(old(table), o, token)
      ensures error.Some? ==> rows == old(rows)
      ensures error.None? ==>
                && |rows| == |old(rows)| + 1
                && rows[|old(rows)|] == Row(o.agent, token[..12], Hmac(token), false, TrimSpace(o.user), o.trustedProxy)
                && (forall t :: t in table <==> t == token || (t in old(table) && old(table)[t].agent != o.agent))
                && table[token] == Resolution(o.agent, TrimSpace(o.user), o.trustedProxy)
    {
      if TrimSpace(o.agent) == "" {
        return Some(BlankAgent);
      }
      var doc := rows;
      var i := 0;
      while i < |doc|
        invariant 0 <= i <= |doc| == |old(rows)| && rows == old(rows) && table == old(table)
        invariant forall k :: 0 <= k < i ==> doc[k] == RevokeFor(old(rows)[k], o.agent)
        invariant forall k :: i <= k < |doc| ==> doc[k] == old(rows)[k]
        invariant !o.rotate ==> forall k :: 0 <= k < i && Active(rows, k) ==> rows[k].agent != o.agent
      {
        if doc[i].agent == o.agent && !doc[i].revoked {
          if !o.rotate {
            assert Active(rows, i);
            return Some(TokenExists);
          }
          doc := doc[i := doc[i].(revoked := true)];
        }
        i := i + 1;
      }
      assert !o.rotate ==> !Holds(table, o.agent);
      var row := Row(o.agent, token[..PREFIX_LEN], Hmac(token), false, TrimSpace(o.user), o.trustedProxy);
      MintRefines(rows, doc, table, o, token, row);
      rows := doc + [row];
      table := TableMint(table, o, token);
      error := None;
    }

    /** The identity a presented token resolves to; unknown, malformed and revoked ones to none. */
    method ResolveFull(token: string) returns (r: Option<Resolution>)
      requires Valid()
      ensures r == if token in table then Some(table[token]) else None
      ensures |token| < 12 || token[..4] != "osk_" ==> r.None?
    {
      if |token| < PREFIX_LEN || !HasPrefix(token, "osk_") {
        return None;
      }
      var prefix := token[..PREFIX_LEN];
      var matched: Option<Row> := None;
      for i := 0 to |rows|
        invariant matched.Some? ==> token in table && table[token] == Identity(matched.value)
        invariant matched.None? ==> forall k :: 0 <= k < i && Active(rows, k) ==> rows[k].hash.token != token
      {
        var row := rows[i];
        if row.prefix != prefix || row.revoked {
          continue;
        }
        assert Active(rows, i);
        if row.hash == Hmac(token) && matched.None? {
          matched := Some(row);
        }
      }
      r := if matched.None? then None else Some(Identity(matched.value));
    }

    /** Revokes every active row of the agent or prefix; none of those tokens resolves afterwards. */
    method Revoke(key: string) returns (revoked: nat)
      requires Valid()
      modifies this
      ensures Valid() && Extends(old(rows), rows)
      ensures table == TableRevoke(old(table), key)
      ensures !Holds(table, key)
      ensures forall t :: t in table <==> t in old(table) && old(table)[t].agent != key && t[..12] != key
      ensures revoked == |Matching(old(rows), |old(rows)|, key)|
      ensures revoked == 0 <==> table == old(table)
    {
      var doc: seq<Row>;
      doc, revoked := MarkRevoked(rows, key);
      RevokeRefines(rows, doc, table, key);
      if revoked == 0 {
        SameRowsSameTable(rows, table, TableRevoke(table, key));
      } else {
        RevokeShrinks(rows, doc, table, key);
      }
      rows, table := doc, TableRevoke(table, key);
    }
  }

  /** Marks the matching active rows and counts them. */
  method MarkRevoked(rows: seq<Row>, key: string) returns (doc: seq<Row>, n: nat)
    ensures |doc| == |rows| && forall i :: 0 <= i < |rows| ==> doc[i] == RevokeBy(rows[i], key)
    ensures n == |Matching(rows, |rows|, key)|
    ensures n == 0 ==> doc == rows
    ensures n > 0 ==> exists i :: 0 <= i < |rows| && doc[i] != rows[i]
  {
    doc, n := rows, 0;
    for i := 0 to |rows|
      invariant |doc| == |rows|
      invariant forall k :: 0 <= k < i ==> doc[k] == RevokeBy(rows[k], key)
      invariant forall k :: i <= k < |doc| ==> doc[k] == rows[k]
      invariant n == |Matching(rows, i, key)|
      invariant n == 0 ==> doc == rows
      invariant n > 0 ==> exists k :: 0 <= k < i && doc[k] != rows[k]
    {
      MatchingSnoc(rows, i, key);
      if !doc[i].revoked && (doc[i].agent == key || doc[i].prefix == key) {
        doc := doc[i := doc[i].(revoked := true)];
        n := n + 1;
      }
    }
  }

  /** The places below `n` of the active rows a revocation key names. */
  function Matching(rows: seq<Row>, n: nat, key: string): set<int>
    requires n <= |rows|
  {
    set i | 0 <= i < n && Revocable(rows[i], key)
  }

  predicate Revocable(r: Row, key: string) {
    !r.revoked && (r.agent == key || r.prefix == key)
  }

  lemma MatchingSnoc(rows: seq<Row>, i: nat, key: string)
    requires i < |rows|
    ensures |Matching(rows, i + 1, key)| == |Matching(rows, i, key)| + (if Revocable(rows[i], key) then 1 else 0)
  {
    var before, after := Matching(rows, i, key), Matching(rows, i + 1, key);
    if Revocable(rows[i], key) {
      assert after == before + {i};
    } else {
      assert after == before;
    }
  }

  function RevokeFor(r: Row, agent: string): Row {
    if r.agent == agent then r.(revoked := true) else r
  }

  function RevokeBy(r: Row, key: string): Row {
    if r.agent == key || r.prefix == key then r.(revoked := true) else r
  }

  lemma MintRefines(rows: seq<Row>, doc: seq<Row>, t: Table, o: MintOptions, token: string, row: Row)
    requires ValidRows(rows) && Refines(rows, t) && IsToken(token)
    requires forall i :: 0 <= i < |rows| ==> rows[i].hash != Hmac(token)
    requires |doc| == |rows| && forall i :: 0 <= i < |rows| ==> doc[i] == RevokeFor(rows[i], o.agent)
    requires row == Row(o.agent, token[..PREFIX_LEN], Hmac(token), false, TrimSpace(o.user), o.trustedProxy)
    ensures ValidRows(doc + [row]) && Refines(doc + [row], TableMint(t, o, token)) && Extends(rows, doc + [row])
  {
    RotatedRefines(rows, doc, t, o.agent);
    var identity := Resolution(o.agent, TrimSpace(o.user), o.trustedProxy);
    AppendRefines(doc, Without(t, o.agent), row, identity);
  }

  /** Revoking some rows keeps the list valid and brings nothing back. */
  lemma RevokedRowsValid(rows: seq<Row>, doc: seq<Row>)
    requires ValidRows(rows) && |doc| == |rows|
    requires forall i :: 0 <= i < |rows| ==> doc[i] == rows[i] || doc[i] == rows[i].(revoked := true)
    ensures ValidRows(doc) && Extends(rows, doc)
  {
  }

  lemma RotatedRefines(rows: seq<Row>, doc: seq<Row>, t: Table, agent: string)
    requires ValidRows(rows) && Refines(rows, t)
    requires |doc| == |rows| && forall i :: 0 <= i < |rows| ==> doc[i] == RevokeFor(rows[i], agent)
    ensures ValidRows(doc) && Refines(doc, Without(t, agent)) && Extends(rows, doc)
    ensures forall i :: Active(doc, i) ==> doc[i].agent != agent
  {
    RevokedRowsValid(rows, doc);
    var t' := Without(t, agent);
    forall i | Active(doc, i) ensures doc[i].hash.token in t' && t'[doc[i].hash.token] == Identity(doc[i]) {
      assert Active(rows, i) && doc[i] == rows[i];
    }
    forall k | k in t' ensures exists i :: Active(doc, i) && doc[i].hash.token == k {
      var i :| Active(rows, i) && rows[i].hash.token == k;
      assert Active(doc, i) && doc[i] == rows[i];
    }
  }

  lemma AppendRefines(doc: seq<Row>, t: Table, row: Row, identity: Resolution)
    requires ValidRows(doc) && Refines(doc, t) && !row.revoked && Identity(row) == identity
    requires IsToken(row.hash.token) && row.prefix == row.hash.token[..PREFIX_LEN]
    requires forall i :: 0 <= i < |doc| ==> doc[i].hash != row.hash
    requires forall i :: Active(doc, i) ==> doc[i].agent != row.agent
    ensures ValidRows(doc + [row]) && Refines(doc + [row], t[row.hash.token := identity])
  {
    var after, t' := doc + [row], t[row.hash.token := identity];
    assert ValidRows(after) by {
      forall i, j | 0 <= i < j < |after| && !after[i].revoked && !after[j].revoked ensures after[i].agent != after[j].agent {
        assert Active(doc, i);
      }
    }
    forall i | Active(after, i) ensures after[i].hash.token in t' && t'[after[i].hash.token] == Identity(after[i]) {
      assert i < |doc| ==> Active(doc, i) && doc[i].hash != row.hash;
    }
    forall k | k in t' ensures exists i :: Active(after, i) && after[i].hash.token == k {
      if k == row.hash.token {
        assert Active(after, |doc|);
      } else {
        var i :| Active(doc, i) && doc[i].hash.token == k;
        assert Active(after, i) && after[i] == doc[i];
      }
    }
  }

  lemma RevokeRefines(rows: seq<Row>, doc: seq<Row>, t: Table, key: string)
    requires ValidRows(rows) && Refines(rows, t)
    requires |doc| == |rows| && forall i :: 0 <= i < |rows| ==> doc[i] == RevokeBy(rows[i], key)
    ensures ValidRows(doc) && Refines(doc, TableRevoke(t, key)) && Extends(rows, doc)
  {
    RevokedRowsValid(rows, doc);
    var t' := TableRevoke(t, key);
    forall i | Active(doc, i) ensures doc[i].hash.token in t' && t'[doc[i].hash.token] == Identity(doc[i]) {
      assert Active(rows, i) && doc[i] == rows[i];
    }
    forall k | k in t' ensures exists i :: Active(doc, i) && doc[i].hash.token == k {
      var i :| Active(rows, i) && rows[i].hash.token == k;
      assert Active(doc, i) && doc[i] == rows[i];
    }
  }

  lemma SameRowsSameTable(rows: seq<Row>, t: Table, u: Table)
    requires Refines(rows, t) && Refines(rows, u)
    ensures t == u
  {
    forall k | k in t ensures k in u && u[k] == t[k] {
      var i :| Active(rows, i) && rows[i].hash.token == k;
    }
    forall k | k in u ensures k in t {
      var i :| Active(rows, i) && rows[i].hash.token == k;
    }
  }

  lemma RevokeShrinks(rows: seq<Row>, doc: seq<Row>, t: Table, key: string)
    requires ValidRows(rows) && Refines(rows, t)
    requires |doc| == |rows| && exists i :: 0 <= i < |rows| && doc[i] != rows[i]
    requires forall i :: 0 <= i < |rows| ==> doc[i] == RevokeBy(rows[i], key)
    ensures TableRevoke(t, key) != t
  {
    var i :| 0 <= i < |rows| && doc[i] != rows[i];
    assert Active(rows, i);
    var k := rows[i].hash.token;
    assert k in t && k !in TableRevoke(t, key);
  }

  // ---- what the table promises ----

  datatype Op = OpMint(o: MintOptions, token: string) | OpRevoke(key: string)

  function TableApply(t: Table, op: Op): Table {
    match op
    case OpMint(o, token) =>
      if TrimSpace(o.agent) == "" || (!o.rotate && Holds(t, o.agent)) then t else TableMint(t, o, token)
    case OpRevoke(key) => TableRevoke(t, key)
  }

  function TableRun(t: Table, ops: seq<Op>): Table
    decreases |ops|
  {
    if ops == [] then t else TableRun(TableApply(t, ops[0]), ops[1..])
  }

  /** Once an agent is revoked, none of its tokens resolves until it is minted a new one. */
  lemma {:induction false} RevokedUntilNextMint(t: Table, agent: string, ops: seq<Op>)
    requires !Holds(t, agent)
    requires forall i :: 0 <= i < |ops| && ops[i].OpMint? ==> ops[i].o.agent != agent
    ensures !Holds(TableRun(t, ops), agent)
    decreases |ops|
  {
    if ops != [] {
      var t' := TableApply(t, ops[0]);
      assert !Holds(t', agent) by {
        if ops[0].OpMint? && t' != t {
          assert forall k :: k in t' ==> k == ops[0].token || k in t;
        }
      }
      RevokedUntilNextMint(t', agent, ops[1..]);
    }
  }

  /** The operation takes a live token of this agent away: a revocation, or a rotation of the agent's token. */
  predicate Retires(op: Op, agent: string, token: string)
    requires |token| >= PREFIX_LEN
  {
    match op
    case OpMint(o, _) => o.agent == agent && o.rotate && TrimSpace(o.agent) != ""
    case OpRevoke(key) => key == agent || key == token[..PREFIX_LEN]
  }

  /** Tokens are drawn fresh, so none is minted twice. */
  predicate NeverMintedAgain(ops: seq<Op>, token: string) {
    forall i :: 0 <= i < |ops| && ops[i].OpMint? ==> ops[i].token != token
  }

  lemma RetiredExactly(t: Table, op: Op, token: string)
    requires token in t && |token| >= PREFIX_LEN && (op.OpMint? ==> op.token != token)
    ensures token in TableApply(t, op) <==> !Retires(op, t[token].agent, token)
    ensures token in TableApply(t, op) ==> TableApply(t, op)[token] == t[token]
  {
    if op.OpMint? && op.o.agent == t[token].agent {
      assert Holds(t, op.o.agent);
    }
  }

  lemma {:induction false} GoneStaysGone(t: Table, ops: seq<Op>, token: string)
    requires token !in t && NeverMintedAgain(ops, token)
    ensures token !in TableRun(t, ops)
    decreases |ops|
  {
    if ops != [] {
      assert token !in TableApply(t, ops[0]);
      GoneStaysGone(TableApply(t, ops[0]), ops[1..], token);
    }
  }

  /**
   A live token resolves to the identity it was minted for, over every later run of mints and
   revokes, exactly as long as it is not revoked, by agent or by prefix, and not rotated.
   */
  lemma {:induction false} ResolvesUntilRetiredExactly(t: Table, ops: seq<Op>, token: string)
    requires token in t && |token| >= PREFIX_LEN && NeverMintedAgain(ops, token)
    ensures token in TableRun(t, ops) <==> forall i :: 0 <= i < |ops| ==> !Retires(ops[i], t[token].agent, token)
    ensures token in TableRun(t, ops) ==> TableRun(t, ops)[token] == t[token]
    decreases |ops|
  {
    if ops != [] {
      var t', rest := TableApply(t, ops[0]), ops[1..];
      RetiredExactly(t, ops[0], token);
      assert NeverMintedAgain(rest, token);
      assert forall i :: 0 <= i < |rest| ==> rest[i] == ops[i + 1];
      if token in t' {
        ResolvesUntilRetiredExactly(t', rest, token);
      } else {
        GoneStaysGone(t', rest, token);
      }
    }
  }

  /** A successful mint makes the token resolve to the minted identity, and no other token of the agent with it. */
  lemma MintedUntilRetired(t: Table, o: MintOptions, token: string, ops: seq<Op>, other: string)
    requires TrimSpace(o.agent) != "" && (o.rotate || !Holds(t, o.agent)) && |token| >= PREFIX_LEN
    requires NeverMintedAgain(ops, token)
    ensures var end := TableRun(t, [OpMint(o, token)] + ops);
            && (token in end <==> forall i :: 0 <= i < |ops| ==> !Retires(ops[i], o.agent, token))
            && (token in end ==> end[token] == Resolution(o.agent, TrimSpace(o.user), o.trustedProxy))
            && (ops == [] && other in end && end[other].agent == o.agent ==> other == token)
  {
    assert ([OpMint(o, token)] + ops)[1..] == ops;
    var t' := TableMint(t, o, token);
    assert TableApply(t, OpMint(o, token)) == t';
    ResolvesUntilRetiredExactly(t', ops, token);
  }
}
