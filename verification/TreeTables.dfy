/** The tables behind the credential tree and the three operator transactions on them, run alone.
  *
  * The statements are those of zkauthn/sql.go; the transactions are the bodies in zkauthn/tree.go. `now` is
  * the transaction's start time, as now() is in Postgres.
  */
module TreeTables {
  import opened Hashing
  import opened SparseTree

  datatype Credential<F> = Credential(commitment: F, issuedTo: Option<string>, revokedAt: Option<int>)

  /** `roots` maps a published root to its retirement time; None marks the current root. */
  datatype Tables<F(==)> = Tables(
    credentials: map<nat, Credential<F>>, nodes: map<Position, F>, roots: map<F, Option<int>>)

  datatype Op =
    | Issue(secret: nat, attribute: nat, issuedTo: string)
    | Revoke(index: nat)
    | RevokeUser(user: string)

  // ---------------------------------------------------------------- statements

  function Live<F>(credentials: map<nat, Credential<F>>): map<nat, F> {
    map i | i in credentials && credentials[i].revokedAt.None? :: credentials[i].commitment
  }

  /** coalesce(max(leaf_index) + 1, 0) */
  ghost function NextLeaf(keys: set<nat>): (n: nat)
    ensures forall k :: k in keys ==> k < n
    ensures n > 0 ==> n - 1 in keys
  {
    if keys == {} then 0
    else
      var k :| k in keys;
      var rest := NextLeaf(keys - {k});
      assert forall j :: j in keys ==> j == k || j in keys - {k};
      if rest < k + 1 then k + 1 else rest
  }

  /** nullif(?, '') */
  function NullIfEmpty(text: string): Option<string> {
    if text == "" then None else Some(text)
  }

  predicate Taken<F(==)>(credentials: map<nat, Credential<F>>, commitment: F) {
    exists i :: i in credentials && credentials[i].commitment == commitment
  }

  /** The single-row update of markRevokedSQL; None when it returns no row. */
  function MarkRevoked<F>(credentials: map<nat, Credential<F>>, index: nat, now: int): Option<map<nat, Credential<F>>> {
    if index in credentials && credentials[index].revokedAt.None? then
      Some(credentials[index := credentials[index].(revokedAt := Some(now))])
    else None
  }

  predicate Holds<F>(credentials: map<nat, Credential<F>>, i: nat, user: string) {
    i in credentials && credentials[i].issuedTo == Some(user) && credentials[i].revokedAt.None?
  }

  /** credentialsByUserSQL below `n`, in index order. */
  function UserRows<F>(credentials: map<nat, Credential<F>>, user: string, n: nat): (rows: seq<nat>)
    ensures forall i: nat :: i in rows <==> i < n && Holds(credentials, i, user)
    ensures forall a, b :: 0 <= a < b < |rows| ==> rows[a] < rows[b]
  {
    if n == 0 then []
    else
      var rows := UserRows(credentials, user, n - 1);
      assert forall a :: 0 <= a < |rows| ==> rows[a] in rows;
      if Holds(credentials, n - 1, user) then rows + [n - 1] else rows
  }

  function RetireRoots<F>(roots: map<F, Option<int>>, now: int): map<F, Option<int>> {
    map r | r in roots :: if roots[r].None? then Some(now) else roots[r]
  }

  function Publish<F>(roots: map<F, Option<int>>, root: F, now: int): map<F, Option<int>> {
    RetireRoots(roots, now)[root := None]
  }

  /** rootAcceptedSQL at time `at`. */
  predicate Accepted<F>(roots: map<F, Option<int>>, root: F, grace: int, at: int) {
    root in roots && (roots[root].None? || (grace > 0 && roots[root].value > at - grace))
  }

  // ---------------------------------------------------------------- transactions

  function WriteLeaf<F(==, !new)>(c: Suite<F>, d: nat, t: Tables<F>, index: nat, leaf: Option<F>, now: int)
    : (t': Tables<F>)
    ensures t'.credentials == t.credentials
  {
    var (nodes, root) := WritePath(c, d, t.nodes, 0, index, LeafValue(c, leaf));
    t.(nodes := nodes, roots := Publish(t.roots, root, now))
  }

  /** Revoking a list of rows one by one; None when some row is not live, which aborts the transaction. */
  function RevokeRows<F(==, !new)>(c: Suite<F>, d: nat, t: Tables<F>, rows: seq<nat>, now: int): Option<Tables<F>>
    decreases |rows|
  {
    if rows == [] then Some(t)
    else
      match MarkRevoked(t.credentials, rows[0], now)
      case None => None
      case Some(credentials) =>
        RevokeRows(c, d, WriteLeaf(c, d, t.(credentials := credentials), rows[0], None, now), rows[1..], now)
  }

  /** The rows a revoking transaction clears. */
  ghost function Rows<F(!new)>(credentials: map<nat, Credential<F>>, op: Op): seq<nat>
    requires !op.Issue?
  {
    match op
    case Revoke(index) => if MarkRevoked(credentials, index, 0).None? then [] else [index]
    case RevokeUser(user) => UserRows(credentials, user, NextLeaf(credentials.Keys))
  }

  /** The tables a transaction commits; None when it is refused and rolls back. */
  ghost function Perform<F(!new)>(c: Suite<F>, d: nat, t: Tables<F>, op: Op, now: int): Option<Tables<F>> {
    match op
    case Issue(secret, attribute, issuedTo) =>
      var commitment := c.Commitment(secret, attribute);
      var next := NextLeaf(t.credentials.Keys);
      if next >= Pow2(d) || Taken(t.credentials, commitment) then None
      else
        var row := Credential(commitment, NullIfEmpty(issuedTo), None);
        Some(WriteLeaf(c, d, t.(credentials := t.credentials[next := row]), next, Some(commitment), now))
    case _ => RevokeRows(c, d, t, Rows(t.credentials, op), now)
  }

  // ---------------------------------------------------------------- the invariant of committed tables

  ghost predicate CurrentIs<F(!new)>(roots: map<F, Option<int>>, root: F) {
    forall r :: r in roots && roots[r].None? <==> r == root
  }

  /** Indices are handed out without gaps and commitments are unique. */
  ghost predicate RowsGood<F(!new)>(d: nat, credentials: map<nat, Credential<F>>) {
    && (forall i: nat :: i in credentials <==> i < |credentials|)
    && |credentials| <= Pow2(d)
    && (forall i, j | i in credentials && j in credentials ::
          credentials[i].commitment == credentials[j].commitment ==> i == j)
  }

  function Root<F(!new)>(c: Suite<F>, d: nat, t: Tables<F>): F {
    Dense(c, Live(t.credentials), d, 0)
  }

  /** The node table is the tree of the live leaves, and its root is the one current root once anything is written. */
  ghost predicate TreeGood<F(!new)>(c: Suite<F>, d: nat, t: Tables<F>) {
    && Represents(c, d, t.nodes, Live(t.credentials))
    && (if t.credentials == map[] then t.roots == map[] else CurrentIs(t.roots, Root(c, d, t)))
  }

  ghost predicate Good<F(!new)>(c: Suite<F>, d: nat, t: Tables<F>) {
    RowsGood(d, t.credentials) && TreeGood(c, d, t)
  }

  function EmptyTables<F(==)>(): Tables<F> {
    Tables(map[], map[], map[])
  }

  lemma EmptyIsGood<F(!new)>(c: Suite<F>, d: nat)
    ensures Good<F>(c, d, EmptyTables())
  {
    EmptyRepresents(c, d);
    assert Live<F>(map[]) == map[];
  }

  lemma IndexInTree<F(!new)>(c: Suite<F>, d: nat, t: Tables<F>, i: nat)
    requires Good(c, d, t) && i in t.credentials
    ensures i < |t.credentials| <= Pow2(d)
  {
    hide TreeGood;
  }

  /** NextLeaf is the number of rows when they are contiguous: indices are handed out in order, without gaps. */
  lemma NextLeafIsCount<F(!new)>(c: Suite<F>, d: nat, t: Tables<F>)
    requires Good(c, d, t)
    ensures NextLeaf(t.credentials.Keys) == |t.credentials|
  {
    var n := NextLeaf(t.credentials.Keys);
    if |t.credentials| > 0 {
      assert |t.credentials| - 1 in t.credentials.Keys;
    }
  }

  /** One leaf write after a credential change: the tree catches up with the credentials, the frame stays. */
  lemma WriteLeafCatchesUp<F(!new)>(
    c: Suite<F>, d: nat, t: Tables<F>, credentials: map<nat, Credential<F>>, index: nat, leaf: Option<F>, now: int)
    requires index < Pow2(d) && Represents(c, d, t.nodes, Live(t.credentials))
    requires Live(credentials) == SetLeaf(Live(t.credentials), index, leaf)
    ensures var t' := WriteLeaf(c, d, t.(credentials := credentials), index, leaf, now);
            && (credentials != map[] ==> TreeGood(c, d, t'))
            && t'.roots == Publish(t.roots, Root(c, d, t'), now)
  {
    WriteLeafRefines(c, d, t.nodes, Live(t.credentials), index, leaf);
  }

  lemma AppendToLive<F(!new)>(credentials: map<nat, Credential<F>>, n: nat, row: Credential<F>)
    requires n !in credentials && row.revokedAt.None?
    ensures Live(credentials[n := row]) == SetLeaf(Live(credentials), n, Some(row.commitment))
    ensures |credentials[n := row]| == |credentials| + 1
  {
    assert credentials[n := row].Keys == credentials.Keys + {n};
    assert |credentials[n := row].Keys| == |credentials.Keys| + 1;
  }

  lemma AppendKeepsRows<F(!new)>(d: nat, credentials: map<nat, Credential<F>>, commitment: F, issuedTo: Option<string>)
    requires RowsGood(d, credentials) && |credentials| < Pow2(d) && !Taken(credentials, commitment)
    ensures var n := |credentials|;
            var credentials' := credentials[n := Credential(commitment, issuedTo, None)];
            RowsGood(d, credentials') && Live(credentials') == SetLeaf(Live(credentials), n, Some(commitment))
  {
    var n := |credentials|;
    AppendToLive(credentials, n, Credential(commitment, issuedTo, None));
    hide Pow2, Live;
  }

  lemma RevokeFromLive<F(!new)>(credentials: map<nat, Credential<F>>, index: nat, now: int)
    requires MarkRevoked(credentials, index, now).Some?
    ensures var credentials' := MarkRevoked(credentials, index, now).value;
            credentials'.Keys == credentials.Keys && |credentials'| == |credentials|
            && Live(credentials') == SetLeaf(Live(credentials), index, None)
  {
    var credentials' := MarkRevoked(credentials, index, now).value;
    assert credentials'.Keys == credentials.Keys;
    assert |credentials'| == |credentials'.Keys| == |credentials|;
    assert Live(credentials') == Live(credentials) - {index};
  }

  lemma RevokeKeepsRows<F(!new)>(d: nat, credentials: map<nat, Credential<F>>, index: nat, now: int)
    requires RowsGood(d, credentials) && MarkRevoked(credentials, index, now).Some?
    ensures var credentials' := MarkRevoked(credentials, index, now).value;
            RowsGood(d, credentials') && Live(credentials') == SetLeaf(Live(credentials), index, None)
  {
    RevokeFromLive(credentials, index, now);
    hide Pow2, Live;
  }

  lemma IssueKeepsGood<F(!new)>(
    c: Suite<F>, d: nat, t: Tables<F>, secret: nat, attribute: nat, issuedTo: string, now: int)
    requires Good(c, d, t) && Perform(c, d, t, Issue(secret, attribute, issuedTo), now).Some?
    ensures var t' := Perform(c, d, t, Issue(secret, attribute, issuedTo), now).value;
            var commitment := c.Commitment(secret, attribute);
            && Good(c, d, t') && |t.credentials| !in t.credentials
            && t'.credentials == t.credentials[|t.credentials| := Credential(commitment, NullIfEmpty(issuedTo), None)]
            && t'.roots == Publish(t.roots, Root(c, d, t'), now)
  {
    NextLeafIsCount(c, d, t);
    var n, commitment := |t.credentials|, c.Commitment(secret, attribute);
    var credentials := t.credentials[n := Credential(commitment, NullIfEmpty(issuedTo), None)];
    AppendKeepsRows(d, t.credentials, commitment, NullIfEmpty(issuedTo));
    WriteLeafCatchesUp(c, d, t, credentials, n, Some(commitment), now);
  }

  lemma DropKeepsGood<F(!new)>(c: Suite<F>, d: nat, t: Tables<F>, index: nat, now: int)
    requires Good(c, d, t) && MarkRevoked(t.credentials, index, now).Some?
    ensures var credentials := MarkRevoked(t.credentials, index, now).value;
            var t' := WriteLeaf(c, d, t.(credentials := credentials), index, None, now);
            && Good(c, d, t') && t'.credentials == credentials
            && Live(credentials) == Live(t.credentials) - {index}
            && t'.roots == Publish(t.roots, Root(c, d, t'), now)
  {
    var credentials := MarkRevoked(t.credentials, index, now).value;
    RevokeKeepsRows(d, t.credentials, index, now);
    WriteLeafCatchesUp(c, d, t, credentials, index, None, now);
  }

  ghost predicate Distinct(rows: seq<nat>) {
    forall a, b :: 0 <= a < b < |rows| ==> rows[a] != rows[b]
  }

  ghost predicate AllLive<F>(credentials: map<nat, Credential<F>>, rows: seq<nat>) {
    forall i :: i in rows ==> i in credentials && credentials[i].revokedAt.None?
  }

  function AllRevoked<F>(credentials: map<nat, Credential<F>>, rows: seq<nat>, now: int): map<nat, Credential<F>> {
    map i | i in credentials :: if i in rows then credentials[i].(revokedAt := Some(now)) else credentials[i]
  }

  lemma TailStaysLive<F>(credentials: map<nat, Credential<F>>, rows: seq<nat>, now: int)
    requires rows != [] && Distinct(rows) && AllLive(credentials, rows)
    ensures MarkRevoked(credentials, rows[0], now).Some?
    ensures var marked := MarkRevoked(credentials, rows[0], now).value;
            && Distinct(rows[1..]) && AllLive(marked, rows[1..])
            && AllRevoked(marked, rows[1..], now) == AllRevoked(credentials, rows, now)
            && Live(credentials) - {rows[0]} - (set i | i in rows[1..]) == Live(credentials) - (set i | i in rows)
  {
    assert rows[0] in rows;
    assert forall j :: j in rows <==> j == rows[0] || j in rows[1..];
    assert rows[0] !in rows[1..];
  }

  /** A batch of distinct live rows always succeeds, in any order, and clears exactly those leaves. */
  lemma {:induction false} RevokeRowsKeepsGood<F(!new)>(c: Suite<F>, d: nat, t: Tables<F>, rows: seq<nat>, now: int)
    requires Good(c, d, t) && Distinct(rows) && AllLive(t.credentials, rows)
    ensures RevokeRows(c, d, t, rows, now).Some?
    ensures var t' := RevokeRows(c, d, t, rows, now).value;
            && Good(c, d, t')
            && t'.credentials == AllRevoked(t.credentials, rows, now)
            && Live(t'.credentials) == Live(t.credentials) - (set i | i in rows)
    decreases |rows|
  {
    hide Good, WriteLeaf;
    if rows != [] {
      var i := rows[0];
      assert i in rows;
      DropKeepsGood(c, d, t, i, now);
      var credentials := MarkRevoked(t.credentials, i, now).value;
      var t1 := WriteLeaf(c, d, t.(credentials := credentials), i, None, now);
      TailStaysLive(t.credentials, rows, now);
      RevokeRowsKeepsGood(c, d, t1, rows[1..], now);
      hide RevokeRows, AllRevoked, AllLive, Live, MarkRevoked;
    }
  }

  /** Revocations are never refused. */
  lemma RevokeKeepsGood<F(!new)>(c: Suite<F>, d: nat, t: Tables<F>, op: Op, now: int)
    requires Good(c, d, t) && !op.Issue?
    ensures Perform(c, d, t, op, now).Some?
    ensures var t', rows := Perform(c, d, t, op, now).value, Rows(t.credentials, op);
            && Good(c, d, t')
            && Distinct(rows) && AllLive(t.credentials, rows)
            && t'.credentials == AllRevoked(t.credentials, rows, now)
            && Live(t'.credentials) == Live(t.credentials) - (set i | i in rows)
  {
    hide Good;
    RevokeRowsKeepsGood(c, d, t, Rows(t.credentials, op), now);
  }

  /** Every transaction that is not refused keeps the invariant. */
  lemma PerformKeepsGood<F(!new)>(c: Suite<F>, d: nat, t: Tables<F>, op: Op, now: int)
    requires Good(c, d, t) && Perform(c, d, t, op, now).Some?
    ensures Good(c, d, Perform(c, d, t, op, now).value)
  {
    hide Good, Perform;
    match op
    case Issue(secret, attribute, issuedTo) =>
      IssueKeepsGood(c, d, t, secret, attribute, issuedTo, now);
    case _ =>
      RevokeKeepsGood(c, d, t, op, now);
  }
}
