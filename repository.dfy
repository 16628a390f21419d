/** `RefreshTokenRepository`: the `REFRESH_TOKENS` table as a map from `jti` to row,
    and the meaning of its queries. `RefreshTokenStore` holds the table the services
    change; `save` on an existing key overwrites that row, as a JPA merge does. */
module Repository {
  import opened Java
  import opened Tokens

  type Table = map<string, RefreshToken>

  /** `jti` is the primary key: every row is stored under its own `jti`. */
  predicate KeyedByJti(t: Table)
  {
    forall k :: k in t ==> t[k].jti == k
  }

  /** `findByJti`. A `null` id matches no row, since no stored row has a `null` key. */
  function FindByJti(t: Table, jti: Option<string>): Option<RefreshToken>
  {
    if jti.Some? && jti.value in t then Some(t[jti.value]) else None
  }

  /** `findByFamilyId`, as the keys of the rows it returns: every row of the family, in
      any status. `FAMILY_ID` is never `null`, so a `null` family matches nothing. */
  function FamilyKeys(t: Table, familyId: Option<string>): set<string>
  {
    set k | k in t && Some(t[k].familyId) == familyId
  }

  /** The rows `findActiveByUserAndDevice` selects. A row without a fingerprint never
      matches, and expiry is not looked at. */
  function ActiveDeviceKeys(t: Table, userId: int, deviceFp: string): set<string>
  {
    set k | k in t && t[k].userId == userId && t[k].deviceFp == Some(deviceFp) && t[k].status == Active
  }

  /** The user's ACTIVE rows, expired ones included. */
  function ActiveKeys(t: Table, userId: int): set<string>
  {
    set k | k in t && t[k].userId == userId && t[k].status == Active
  }

  /** The element of a one-element set. */
  function TheOnly(s: set<string>): (x: string)
    requires |s| == 1
    ensures s == {x}
  {
    SingletonUnique(s);
    var x :| x in s; x
  }

  lemma SingletonUnique(s: set<string>)
    requires |s| == 1
    ensures forall a, b :: a in s && b in s ==> a == b
  {
    forall a, b | a in s && b in s
      ensures a == b
    {
      if a != b {
        SubsetCard({a, b}, s);
      }
    }
  }

  /** `findActiveByUserAndDevice`. Its `Optional` result admits one row: with several
      matches, Spring Data throws an `IncorrectResultSizeDataAccessException`. */
  function FindActiveByUserAndDevice(t: Table, userId: int, deviceFp: string): (r: Checked<Option<RefreshToken>>)
    ensures r == Returns(None) <==> ActiveDeviceKeys(t, userId, deviceFp) == {}
    ensures r.Returns? && r.value.Some? <==> |ActiveDeviceKeys(t, userId, deviceFp)| == 1
    ensures r.Returns? && r.value.Some? ==>
      var row := r.value.value;
      row.userId == userId && row.deviceFp == Some(deviceFp) && row.status == Active
      && row in t.Values
    ensures r.Throws? <==> |ActiveDeviceKeys(t, userId, deviceFp)| > 1
  {
    var ks := ActiveDeviceKeys(t, userId, deviceFp);
    if |ks| == 0 then Returns(None)
    else if |ks| == 1 then Returns(Some(t[TheOnly(ks)]))
    else Throws(IncorrectResultSize(1, |ks|))
  }

  /** `countActiveByUser`. */
  function CountActiveByUser(t: Table, userId: int): nat
  {
    |ActiveKeys(t, userId)|
  }

  /** The order of `findActiveOldestFirst`: `coalesce(lastUsedAt, createdAt)`. */
  function SortKey(r: RefreshToken): Instant
  {
    if r.lastUsedAt.Some? then r.lastUsedAt.value else r.createdAt
  }

  /** Row `k` may come first in `findActiveOldestFirst`: an ACTIVE row of the user with the
      smallest sort key. Ties are in no determined order. */
  predicate IsOldestActive(t: Table, userId: int, k: string)
  {
    k in ActiveKeys(t, userId) && forall k' :: k' in ActiveKeys(t, userId) ==> SortKey(t[k]) <= SortKey(t[k'])
  }

  /** What the first page of size one of `findActiveOldestFirst` may hold. */
  predicate IsFirstOldest(t: Table, userId: int, first: Option<string>)
  {
    (first.None? <==> ActiveKeys(t, userId) == {}) && (first.Some? ==> IsOldestActive(t, userId, first.value))
  }

  /** Some admissible first row of `findActiveOldestFirst`. */
  ghost function SomeOldest(t: Table, userId: int): (first: Option<string>)
    ensures IsFirstOldest(t, userId, first)
  {
    var active := ActiveKeys(t, userId);
    if active == {} then None
    else
      SmallestExists(t, active);
      var k :| k in active && forall k' :: k' in active ==> SortKey(t[k]) <= SortKey(t[k']);
      Some(k)
  }

  /** Every non-empty set of rows has one with a smallest sort key. */
  lemma {:induction false} SmallestExists(t: Table, ks: set<string>)
    requires ks != {} && ks <= t.Keys
    ensures exists k :: k in ks && forall k' :: k' in ks ==> SortKey(t[k]) <= SortKey(t[k'])
  {
    var x :| x in ks;
    if ks != {x} {
      SmallestExists(t, ks - {x});
      var m :| m in ks - {x} && forall k' :: k' in ks - {x} ==> SortKey(t[m]) <= SortKey(t[k']);
      if SortKey(t[x]) < SortKey(t[m]) {
        assert forall k' :: k' in ks ==> SortKey(t[x]) <= SortKey(t[k']);
      } else {
        assert forall k' :: k' in ks ==> SortKey(t[m]) <= SortKey(t[k']);
      }
    }
  }

  /** The table after every row of the family is set to REVOKED. */
  function RevokedFamily(t: Table, familyId: Option<string>): Table
  {
    map k | k in t :: if k in FamilyKeys(t, familyId) then t[k].(status := Revoked) else t[k]
  }

  /** `findByJti` returns the one row whose `jti` matches, when there is one. */
  lemma FindByJtiExact(t: Table, jti: string)
    requires KeyedByJti(t)
    ensures FindByJti(t, Some(jti)).Some? <==> exists k :: k in t && t[k].jti == jti
    ensures FindByJti(t, Some(jti)).Some? ==>
      FindByJti(t, Some(jti)).value.jti == jti
      && forall k :: k in t && t[k].jti == jti ==> t[k] == FindByJti(t, Some(jti)).value
    ensures FindByJti(t, None).None?
  {
  }

  /** Revoking a family sets REVOKED on exactly its rows and leaves every other row as it was:
      it adds and removes no row and changes no other field. */
  lemma RevokedFamilyExact(t: Table, familyId: Option<string>)
    ensures RevokedFamily(t, familyId).Keys == t.Keys
    ensures forall k :: k in t && Some(t[k].familyId) == familyId ==>
      RevokedFamily(t, familyId)[k] == t[k].(status := Revoked)
    ensures forall k :: k in t && Some(t[k].familyId) != familyId ==> RevokedFamily(t, familyId)[k] == t[k]
    ensures familyId.None? ==> RevokedFamily(t, familyId) == t
  {
  }

  /** Revoking a family twice is revoking it once. */
  lemma RevokedFamilyIdempotent(t: Table, familyId: Option<string>)
    ensures RevokedFamily(RevokedFamily(t, familyId), familyId) == RevokedFamily(t, familyId)
  {
    var once := RevokedFamily(t, familyId);
    assert FamilyKeys(once, familyId) == FamilyKeys(t, familyId);
  }

  /** After the revocation no row of the family is active, at any time, and the key
      invariant is kept. */
  lemma RevokedFamilyDisables(t: Table, familyId: Option<string>, now: Instant)
    ensures forall k :: k in RevokedFamily(t, familyId) && Some(RevokedFamily(t, familyId)[k].familyId) == familyId ==>
      !IsActive(RevokedFamily(t, familyId)[k], now)
    ensures KeyedByJti(t) ==> KeyedByJti(RevokedFamily(t, familyId))
  {
  }

  /** Revocation never reactivates: a REVOKED or USED row stays so, and the user's ACTIVE
      rows can only shrink. */
  lemma RevokedFamilyOnlyDeactivates(t: Table, familyId: Option<string>, userId: int)
    ensures ActiveKeys(RevokedFamily(t, familyId), userId) <= ActiveKeys(t, userId)
    ensures CountActiveByUser(RevokedFamily(t, familyId), userId) <= CountActiveByUser(t, userId)
  {
    var a, b := ActiveKeys(RevokedFamily(t, familyId), userId), ActiveKeys(t, userId);
    assert a <= b;
    SubsetCard(a, b);
  }

  lemma SubsetCard(a: set<string>, b: set<string>)
    requires a <= b
    ensures |a| <= |b|
  {
    assert b == a + (b - a);
  }

  class RefreshTokenStore {
    var rows: Table

    constructor (rows0: Table)
      ensures rows == rows0
    {
      rows := rows0;
    }

    predicate Valid()
      reads this
    {
      KeyedByJti(rows)
    }

    /** `save`: inserts the row, or overwrites the row with the same `jti`. */
    method Save(r: RefreshToken)
      modifies this
      ensures rows == old(rows)[r.jti := r]
      ensures old(Valid()) ==> Valid()
    {
      rows := rows[r.jti := r];
    }

    /** Undoes every change since `snapshot` was taken: a transaction rolled back. */
    method Restore(snapshot: Table)
      modifies this
      ensures rows == snapshot
    {
      rows := snapshot;
    }

    /** The first row of `findActiveOldestFirst(userId, PageRequest.of(0, 1))`, by key. */
    method FindActiveOldestFirst(userId: int) returns (first: Option<string>)
      ensures IsFirstOldest(rows, userId, first)
    {
      var active := ActiveKeys(rows, userId);
      if active == {} {
        return None;
      }
      SmallestExists(rows, active);
      var k :| k in active && forall k' :: k' in active ==> SortKey(rows[k]) <= SortKey(rows[k']);
      return Some(k);
    }

    /** `revokeFamily` of both services: `findByFamilyId`, `setStatus(REVOKED)` on every row
        of the list, then `saveAll`. */
    method RevokeFamily(familyId: Option<string>)
      requires Valid()
      modifies this
      ensures rows == RevokedFamily(old(rows), familyId)
      ensures Valid()
    {
      ghost var start := rows;
      var family := FamilyKeys(rows, familyId);
      var pending := family;
      while pending != {}
        invariant pending <= family
        invariant rows.Keys == start.Keys && KeyedByJti(rows)
        invariant forall k :: k in rows ==>
          rows[k] == (if k in family - pending then start[k].(status := Revoked) else start[k])
        decreases |pending|
      {
        var k :| k in pending;
        var r := rows[k].(status := Revoked);
        Save(r);
        pending := pending - {k};
      }
    }
  }
}
