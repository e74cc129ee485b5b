/**
 Creating, rotating and revoking the token keys (packages/db/src/keys/manage-keys.ts).

 Operator commands are serialised. A command is a series of statements with time passing between
 them, and may be cut short between any two. Key generation, the wrapped material and the passing
 of time are inputs.
 */
module KeyLifecycle {
  import opened Text
  import opened KeyLoading

  // ---------------------------------------------------------------- the overlap

  /** An environment variable read through `Number`: unset, a number, or NaN or an infinity. */
  datatype Env = Unset | Finite(n: int) | NotFinite

  function NumberOr(e: Env, fallback: int): int {
    if e.Finite? then e.n else fallback
  }

  /** `overlapSeconds`. */
  function OverlapSeconds(ttl: Env, tolerance: Env): int {
    NumberOr(ttl, 900) + NumberOr(tolerance, 5)
  }

  /** What cannot be read as a number counts as its default. */
  lemma OverlapDefaults(n: int)
    ensures OverlapSeconds(Unset, Unset) == OverlapSeconds(NotFinite, NotFinite) == 905
    ensures OverlapSeconds(Finite(n), Unset) == OverlapSeconds(Finite(n), NotFinite) == n + 5
    ensures OverlapSeconds(Unset, Finite(n)) == OverlapSeconds(NotFinite, Finite(n)) == 900 + n
  {
  }

  // ---------------------------------------------------------------- single statements

  type Keys = map<string, KeyRow>

  /** An `activate` that has read the clock and has not committed its transaction yet. */
  datatype Activation = Activation(purpose: Purpose, kid: string, readAt: int)

  /** The clock, in milliseconds, the table, and the activation in flight. */
  datatype Registry = Registry(now: int, keys: Keys, activating: Option<Activation>)

  ghost predicate IsActive(keys: Keys, purpose: Purpose, kid: string) {
    kid in keys && keys[kid].purpose == purpose && keys[kid].state == Active
  }

  ghost predicate HasActive(keys: Keys, purpose: Purpose) {
    exists kid :: IsActive(keys, purpose, kid)
  }

  /** `findFirst({ purpose, state: "active" })`. */
  ghost function ActiveKid(keys: Keys, purpose: Purpose): (r: Option<string>)
    ensures r.Some? <==> HasActive(keys, purpose)
    ensures r.Some? ==> IsActive(keys, purpose, r.value)
  {
    if HasActive(keys, purpose) then
      var kid :| IsActive(keys, purpose, kid);
      Some(kid)
    else None
  }

  /** A generated key: what `generateSigningKey` or `generateEncryptionKey` and `wrap` produce. */
  datatype NewKey = NewKey(kid: string, wrapped: string, kekId: string, jwk: Jwk)

  function PendingRow(purpose: Purpose, key: NewKey): KeyRow {
    if purpose == TokenSigning
    then KeyRow(purpose, ES256, Pending, Some(key.wrapped), key.kekId, Some(key.jwk), None, None, None, None, None)
    else KeyRow(purpose, A256KW, Pending, Some(key.wrapped), key.kekId, None, None, None, None, None, None)
  }

  /** A pending row holding the generated key: its wrapped material, its key-encrypting key, its public half if it has one. */
  predicate IsNewRow(row: KeyRow, purpose: Purpose, key: NewKey) {
    && row.purpose == purpose && row.state == Pending && row.wrappedKey == Some(key.wrapped) && row.kekId == key.kekId
    && row.algorithm == (if purpose == TokenSigning then ES256 else A256KW)
    && row.publicJwk == (if purpose == TokenSigning then Some(key.jwk) else None)
    && row.activatedAt == row.retiringAt == row.notAfter == row.revokedAt == None && row.revokedReason == None
  }

  /** What generating and wrapping a key under `provider` yields. */
  ghost predicate Generated(provider: KeyProvider, purpose: Purpose, key: NewKey) {
    var material := provider.unwrap(key.wrapped, purpose, key.kid);
    && key.kekId == provider.id && material.Some? && purpose in PURPOSES
    && (purpose == TokenSigning ==>
          && provider.publicHalf(material.value) == Some(key.jwk.point) && provider.importable(key.jwk.point)
          && key.jwk == Jwk(key.jwk.point, Some(key.kid), Some("ES256"), Some("sig"), {}))
    && (purpose == TokenEncryption ==> |material.value| == ENCRYPTION_KEY_BYTES)
  }

  /** What `createPending` stores, `loadStoredKey` accepts, whatever state and times the row takes on before it is revoked. */
  lemma CreatedKeysLoad(provider: KeyProvider, purpose: Purpose, key: NewKey, row: KeyRow)
    requires Generated(provider, purpose, key)
    requires RowForward(PendingRow(purpose, key), row) && row.state != Revoked
    ensures LoadStoredKey(provider, key.kid, row).Ok? && (LoadStoredKey(provider, key.kid, row).value.SigningKey? <==> purpose == TokenSigning)
  {
    if purpose == TokenSigning {
      SigningRowLoadsIff(provider, key.kid, row);
    }
  }

  /** The end of the overlap is counted from `readAt`, the clock before the transaction. */
  function Retire(row: KeyRow, readAt: int, at: int, overlap: int): KeyRow {
    row.(state := Retiring, retiringAt := Some(at), notAfter := Some(readAt + overlap * 1000))
  }

  /** The transaction of `activate`: retire whatever is active, then promote `kid`. */
  ghost function ActivateTx(keys: Keys, purpose: Purpose, kid: string, readAt: int, at: int, overlap: int): Keys
    requires kid in keys
  {
    var current := ActiveKid(keys, purpose);
    var retired := if current.Some? then keys[current.value := Retire(keys[current.value], readAt, at, overlap)] else keys;
    retired[kid := retired[kid].(state := Active, activatedAt := Some(at))]
  }

  // ---------------------------------------------------------------- commands

  datatype Crash = NoCrash | BeforeCreate | AfterCreate | BeforeCommit

  /** One turn of a command's loop: the key it generates, the time its steps take, and where it is cut short. */
  datatype Turn = Turn(key: NewKey, toRead: nat, toCommit: nat, crash: Crash)

  const PURPOSES: seq<Purpose> := [TokenSigning, TokenEncryption]

  /** Create a key and activate it. `false`: the command stopped here, by a crash or a duplicate kid. */
  ghost function Promote(r: Registry, purpose: Purpose, turn: Turn, overlap: int): (Registry, bool) {
    var kid := turn.key.kid;
    if turn.crash == BeforeCreate || kid in r.keys then (r, false)
    else
      var created := r.keys[kid := PendingRow(purpose, turn.key)];
      var readAt := r.now + turn.toRead;
      var at := readAt + turn.toCommit;
      if turn.crash == AfterCreate then (Registry(readAt, created, None), false)
      else if turn.crash == BeforeCommit then (Registry(at, created, None), false)
      else (Registry(at, ActivateTx(created, purpose, kid, readAt, at, overlap), None), true)
  }

  /** A command's loop over its purposes: `init` skips those that have an active key, `rotate` none. */
  ghost function Loop(r: Registry, purposes: seq<Purpose>, turns: seq<Turn>, skip: bool, overlap: int): (Registry, bool)
    requires |turns| == |purposes|
    decreases |purposes|
  {
    if |purposes| == 0 then (r, true)
    else if skip && HasActive(r.keys, purposes[0]) then Loop(r, purposes[1..], turns[1..], skip, overlap)
    else
      var (r', ok) := Promote(r, purposes[0], turns[0], overlap);
      if ok then Loop(r', purposes[1..], turns[1..], skip, overlap) else (r', false)
  }

  datatype RevokeResult = Done | AlreadyRevoked | NoSuchKey | StillActive

  function Revocation(keys: Keys, kid: string): RevokeResult {
    if kid !in keys then NoSuchKey
    else if keys[kid].state == Revoked then AlreadyRevoked
    else if keys[kid].state == Active then StillActive
    else Done
  }

  function AfterRevoke(keys: Keys, kid: string, reason: string, at: int): Keys {
    if Revocation(keys, kid) == Done
    then keys[kid := keys[kid].(state := Revoked, wrappedKey := None, revokedAt := Some(at), revokedReason := Some(reason))]
    else keys
  }

  /** The row a key becomes when it is revoked: the material gone, the time and the reason recorded, all else kept. */
  predicate RevokedFrom(before: KeyRow, after: KeyRow, reason: string, at: int) {
    && after.state == Revoked && after.wrappedKey == None && after.revokedAt == Some(at) && after.revokedReason == Some(reason)
    && after.purpose == before.purpose && after.algorithm == before.algorithm && after.kekId == before.kekId
    && after.publicJwk == before.publicJwk && after.activatedAt == before.activatedAt
    && after.retiringAt == before.retiringAt && after.notAfter == before.notAfter
  }

  // ---------------------------------------------------------------- the commands as they run

  class KeyManager {
    var now: int
    var keys: Keys
    const overlap: int

    ghost function View(): Registry
      reads this
    {
      Registry(now, keys, None)
    }

    constructor (now: int, ttl: Env, tolerance: Env)
      ensures View() == Registry(now, map[], None) && overlap == OverlapSeconds(ttl, tolerance)
    {
      this.now, keys, overlap := now, map[], OverlapSeconds(ttl, tolerance);
    }

    /** Reads the active key of a purpose. */
    method FindActive(purpose: Purpose) returns (r: Option<string>)
      requires AtMostOneActive(keys)
      ensures r == ActiveKid(keys, purpose)
    {
      var found := set kid | kid in keys && keys[kid].purpose == purpose && keys[kid].state == Active;
      assert forall kid :: kid in found <==> IsActive(keys, purpose, kid);
      if found == {} {
        return None;
      }
      var kid :| kid in found;
      return Some(kid);
    }

    method CreatePending(purpose: Purpose, key: NewKey) returns (ok: bool)
      modifies this`keys
      ensures ok == (key.kid !in old(keys))
      ensures keys == if ok then old(keys)[key.kid := PendingRow(purpose, key)] else old(keys)
      ensures ok ==> IsNewRow(keys[key.kid], purpose, key)
    {
      if key.kid in keys {
        return false;
      }
      if purpose == TokenSigning {
        keys := keys[key.kid := KeyRow(purpose, ES256, Pending, Some(key.wrapped), key.kekId, Some(key.jwk), None, None, None, None, None)];
      } else {
        keys := keys[key.kid := KeyRow(purpose, A256KW, Pending, Some(key.wrapped), key.kekId, None, None, None, None, None, None)];
      }
      return true;
    }

    method Activate(purpose: Purpose, kid: string, toCommit: nat) returns (retired: Option<string>)
      requires kid in keys && AtMostOneActive(keys)
      modifies this
      ensures now == old(now) + toCommit
      ensures keys == ActivateTx(old(keys), purpose, kid, old(now), now, overlap)
      ensures retired == ActiveKid(old(keys), purpose)
      ensures keys[kid] == (if retired == Some(kid) then Retire(old(keys)[kid], old(now), now, overlap) else old(keys)[kid]).(state := Active, activatedAt := Some(now))
      ensures retired.Some? && retired.value != kid ==>
                && retired.value in old(keys) && retired.value in keys
                && keys[retired.value] == old(keys)[retired.value].(state := Retiring, retiringAt := Some(now), notAfter := Some(old(now) + overlap * 1000))
      ensures keys.Keys == old(keys).Keys
      ensures forall k :: k in keys && k != kid && Some(k) != retired ==> keys[k] == old(keys)[k]
    {
      var notAfter := now + overlap * 1000;
      now := now + toCommit;
      retired := FindActive(purpose);
      if retired.Some? {
        var current := keys[retired.value];
        keys := keys[retired.value := current.(state := Retiring, retiringAt := Some(now), notAfter := Some(notAfter))];
      }
      keys := keys[kid := keys[kid].(state := Active, activatedAt := Some(now))];
    }

    method PromoteNew(purpose: Purpose, turn: Turn) returns (ok: bool)
      requires AtMostOneActive(keys)
      modifies this
      ensures (View(), ok) == Promote(old(View()), purpose, turn, overlap)
    {
      if turn.crash == BeforeCreate {
        return false;
      }
      ok := CreatePending(purpose, turn.key);
      if !ok {
        return;
      }
      now := now + turn.toRead;
      if turn.crash == AfterCreate {
        return false;
      }
      if turn.crash == BeforeCommit {
        now := now + turn.toCommit;
        return false;
      }
      NewRowIsNotActive(old(keys), turn.key.kid, PendingRow(purpose, turn.key));
      var _ := Activate(purpose, turn.key.kid, turn.toCommit);
    }

    method Init(turns: seq<Turn>) returns (ok: bool)
      requires |turns| == |PURPOSES| && AtMostOneActive(keys)
      modifies this
      ensures (View(), ok) == Loop(old(View()), PURPOSES, turns, true, overlap)
    {
      var i := 0;
      while i < |PURPOSES|
        invariant 0 <= i <= |PURPOSES| && AtMostOneActive(keys)
        invariant Loop(View(), PURPOSES[i..], turns[i..], true, overlap) == Loop(old(View()), PURPOSES, turns, true, overlap)
      {
        var existing := FindActive(PURPOSES[i]);
        if existing.None? {
          PromoteKeepsAtMostOne(View(), PURPOSES[i], turns[i], overlap);
          var made := PromoteNew(PURPOSES[i], turns[i]);
          if !made {
            return false;
          }
        }
        i := i + 1;
      }
      return true;
    }

    method Rotate(only: Option<Purpose>, turns: seq<Turn>) returns (ok: bool)
      requires |turns| == |Chosen(only)| && AtMostOneActive(keys)
      modifies this
      ensures (View(), ok) == Loop(old(View()), Chosen(only), turns, false, overlap)
    {
      var purposes := Chosen(only);
      var i := 0;
      while i < |purposes|
        invariant 0 <= i <= |purposes| && AtMostOneActive(keys)
        invariant Loop(View(), purposes[i..], turns[i..], false, overlap) == Loop(old(View()), purposes, turns, false, overlap)
      {
        PromoteKeepsAtMostOne(View(), purposes[i], turns[i], overlap);
        var made := PromoteNew(purposes[i], turns[i]);
        if !made {
          return false;
        }
        i := i + 1;
      }
      return true;
    }

    method Revoke(kid: string, reason: string) returns (r: RevokeResult)
      modifies this`keys
      ensures r == Revocation(old(keys), kid) && keys == AfterRevoke(old(keys), kid, reason, now)
      ensures r == NoSuchKey <==> kid !in old(keys)
      ensures r == AlreadyRevoked <==> kid in old(keys) && old(keys)[kid].state == Revoked
      ensures r == StillActive <==> kid in old(keys) && old(keys)[kid].state == Active
      ensures r != Done ==> keys == old(keys)
      ensures r == Done ==> keys == old(keys)[kid := keys[kid]] && RevokedFrom(old(keys)[kid], keys[kid], reason, now)
    {
      if kid !in keys {
        return NoSuchKey;
      }
      var key := keys[kid];
      if key.state == Revoked {
        return AlreadyRevoked;
      }
      if key.state == Active {
        return StillActive;
      }
      keys := keys[kid := key.(state := Revoked, wrappedKey := None, revokedAt := Some(now), revokedReason := Some(reason))];
      return Done;
    }
  }

  function Chosen(only: Option<Purpose>): seq<Purpose> {
    if only.Some? then [only.value] else PURPOSES
  }

  // ---------------------------------------------------------------- what every command keeps

  ghost predicate AtMostOneActive(keys: Keys) {
    forall purpose, a, b :: IsActive(keys, purpose, a) && IsActive(keys, purpose, b) ==> a == b
  }

  /** The CHECK constraints of the table, and that an active key has no end. */
  ghost predicate RowOk(row: KeyRow) {
    && (row.purpose == TokenSigning ==> row.algorithm == ES256 && row.publicJwk.Some?)
    && (row.purpose == TokenEncryption ==> row.algorithm == A256KW && row.publicJwk.None?)
    && (row.state == Revoked <==> row.wrappedKey.None?)
    && (row.state == Revoked ==> row.revokedReason.Some? && row.revokedAt.Some?)
    && (row.state == Retiring ==> row.notAfter.Some? && row.retiringAt.Some?)
    && (row.state == Active || row.state == Pending ==> row.notAfter.None?)
    && (row.state == Pending ==> row.activatedAt.None?)
  }

  ghost predicate Inv(keys: Keys) {
    AtMostOneActive(keys) && forall kid :: kid in keys ==> RowOk(keys[kid])
  }

  function Rank(s: State): nat {
    match s
    case Pending => 0
    case Active => 1
    case Retiring => 2
    case Revoked => 3
  }

  /** What may happen to one row: forward only; a revoked row and an end once set never change. */
  ghost predicate RowForward(a: KeyRow, b: KeyRow) {
    && Rank(a.state) <= Rank(b.state)
    && b.purpose == a.purpose && b.algorithm == a.algorithm && b.kekId == a.kekId && b.publicJwk == a.publicJwk
    && (b.wrappedKey == a.wrappedKey || b.state == Revoked)
    && (a.state == Revoked ==> b == a)
    && (a.notAfter.Some? ==> b.notAfter == a.notAfter && b.retiringAt == a.retiringAt)
    && (a.activatedAt.Some? ==> b.activatedAt == a.activatedAt)
  }

  /** No row disappears, every row moves forward, and a purpose that has an active key keeps one. */
  ghost predicate Forward(a: Keys, b: Keys) {
    && (forall kid :: kid in a ==> kid in b && RowForward(a[kid], b[kid]))
    && (forall purpose :: HasActive(a, purpose) ==> HasActive(b, purpose))
  }

  lemma ForwardTrans(a: Keys, b: Keys, c: Keys)
    requires Forward(a, b) && Forward(b, c)
    ensures Forward(a, c)
  {
    hide HasActive;
    forall kid | kid in a ensures kid in c && RowForward(a[kid], c[kid]) {
      assert RowForward(a[kid], b[kid]) && RowForward(b[kid], c[kid]);
    }
  }

  lemma NewRowIsNotActive(keys: Keys, kid: string, row: KeyRow)
    requires kid !in keys && row.state == Pending
    ensures forall purpose, k :: IsActive(keys[kid := row], purpose, k) <==> IsActive(keys, purpose, k)
    ensures AtMostOneActive(keys) ==> AtMostOneActive(keys[kid := row])
  {
    var after := keys[kid := row];
    assert forall purpose, k :: IsActive(after, purpose, k) <==> IsActive(keys, purpose, k);
    if AtMostOneActive(keys) {
      forall p, a, b | IsActive(after, p, a) && IsActive(after, p, b) ensures a == b {
        assert IsActive(keys, p, a) && IsActive(keys, p, b);
      }
    }
  }

  lemma CreateKeepsInv(keys: Keys, purpose: Purpose, key: NewKey)
    requires Inv(keys) && key.kid !in keys
    ensures Inv(keys[key.kid := PendingRow(purpose, key)]) && Forward(keys, keys[key.kid := PendingRow(purpose, key)])
  {
    NewRowIsNotActive(keys, key.kid, PendingRow(purpose, key));
    hide IsActive;
  }

  /** After the transaction `kid` is the active key of its purpose, and other purposes are as they were. */
  lemma WhoIsActiveAfter(keys: Keys, purpose: Purpose, kid: string, readAt: int, at: int, overlap: int)
    requires AtMostOneActive(keys) && kid in keys && keys[kid].purpose == purpose && keys[kid].state == Pending
    ensures var after := ActivateTx(keys, purpose, kid, readAt, at, overlap);
            && (forall k :: IsActive(after, purpose, k) <==> k == kid)
            && (forall p, k :: p != purpose ==> (IsActive(after, p, k) <==> IsActive(keys, p, k)))
  {
    var current := ActiveKid(keys, purpose);
    assert current.Some? ==> IsActive(keys, purpose, current.value);
    assert current.None? ==> forall k :: !IsActive(keys, purpose, k);
    forall k | IsActive(ActivateTx(keys, purpose, kid, readAt, at, overlap), purpose, k) ensures k == kid {
      if k != kid {
        assert IsActive(keys, purpose, k);
      }
    }
  }

  lemma ActivateKeepsInv(keys: Keys, purpose: Purpose, kid: string, readAt: int, at: int, overlap: int)
    requires Inv(keys) && kid in keys && keys[kid].purpose == purpose && keys[kid].state == Pending
    ensures var after := ActivateTx(keys, purpose, kid, readAt, at, overlap);
            Inv(after) && Forward(keys, after) && IsActive(after, purpose, kid)
  {
    var after := ActivateTx(keys, purpose, kid, readAt, at, overlap);
    WhoIsActiveAfter(keys, purpose, kid, readAt, at, overlap);
    var current := ActiveKid(keys, purpose);
    assert current.Some? ==> IsActive(keys, purpose, current.value);
    forall k | k in keys ensures k in after && RowForward(keys[k], after[k]) && RowOk(after[k]) {
      assert RowOk(keys[k]);
    }
    forall p | HasActive(keys, p) ensures HasActive(after, p) {
      if p != purpose {
        var k :| IsActive(keys, p, k);
        assert IsActive(after, p, k);
      } else {
        assert IsActive(after, p, kid);
      }
    }
  }

  lemma PromoteKeepsAtMostOne(r: Registry, purpose: Purpose, turn: Turn, overlap: int)
    requires AtMostOneActive(r.keys)
    ensures AtMostOneActive(Promote(r, purpose, turn, overlap).0.keys)
  {
    var kid := turn.key.kid;
    if turn.crash != BeforeCreate && kid !in r.keys {
      var created, readAt := r.keys[kid := PendingRow(purpose, turn.key)], r.now + turn.toRead;
      NewRowIsNotActive(r.keys, kid, PendingRow(purpose, turn.key));
      WhoIsActiveAfter(created, purpose, kid, readAt, readAt + turn.toCommit, overlap);
      hide ActivateTx, IsActive;
    }
  }

  lemma PromoteKeepsInv(r: Registry, purpose: Purpose, turn: Turn, overlap: int)
    requires Inv(r.keys)
    ensures var (r', ok) := Promote(r, purpose, turn, overlap);
            && Inv(r'.keys) && Forward(r.keys, r'.keys) && r.now <= r'.now
            && (ok ==> HasActive(r'.keys, purpose))
  {
    hide RowOk, RowForward, AtMostOneActive, IsActive, ActivateTx;
    var kid := turn.key.kid;
    NothingIsForward(r.keys);
    if turn.crash != BeforeCreate && kid !in r.keys {
      var created, readAt := r.keys[kid := PendingRow(purpose, turn.key)], r.now + turn.toRead;
      CreateKeepsInv(r.keys, purpose, turn.key);
      ActivateKeepsInv(created, purpose, kid, readAt, readAt + turn.toCommit, overlap);
      ForwardTrans(r.keys, created, ActivateTx(created, purpose, kid, readAt, readAt + turn.toCommit, overlap));
    }
  }

  lemma NothingIsForward(keys: Keys)
    ensures Forward(keys, keys)
  {
  }

  lemma {:induction false} LoopKeepsInv(r: Registry, purposes: seq<Purpose>, turns: seq<Turn>, skip: bool, overlap: int)
    requires |turns| == |purposes| && Inv(r.keys)
    ensures var (r', ok) := Loop(r, purposes, turns, skip, overlap);
            && Inv(r'.keys) && Forward(r.keys, r'.keys) && r.now <= r'.now
            && (ok ==> forall p :: p in purposes ==> HasActive(r'.keys, p))
    decreases |purposes|
  {
    hide Inv, HasActive, Promote;
    NothingIsForward(r.keys);
    if |purposes| > 0 {
      assert purposes == [purposes[0]] + purposes[1..];
      if skip && HasActive(r.keys, purposes[0]) {
        LoopKeepsInv(r, purposes[1..], turns[1..], skip, overlap);
      } else {
        var (r1, ok) := Promote(r, purposes[0], turns[0], overlap);
        PromoteKeepsInv(r, purposes[0], turns[0], overlap);
        if ok {
          LoopKeepsInv(r1, purposes[1..], turns[1..], skip, overlap);
          ForwardTrans(r.keys, r1.keys, Loop(r1, purposes[1..], turns[1..], skip, overlap).0.keys);
        }
      }
    }
  }

  /** Who is active for `p`, and that it is unique. */
  ghost predicate Sole(keys: Keys, p: Purpose, kid: string) {
    IsActive(keys, p, kid) && forall k :: IsActive(keys, p, k) ==> k == kid
  }

  ghost predicate SameActive(a: Keys, b: Keys, p: Purpose) {
    forall k :: IsActive(a, p, k) <==> IsActive(b, p, k)
  }

  lemma PromoteActivates(r: Registry, purpose: Purpose, turn: Turn, overlap: int)
    requires AtMostOneActive(r.keys)
    ensures var (r', ok) := Promote(r, purpose, turn, overlap);
            && (ok ==> Sole(r'.keys, purpose, turn.key.kid))
            && (forall p :: p != purpose ==> SameActive(r.keys, r'.keys, p))
            && (!ok ==> SameActive(r.keys, r'.keys, purpose))
            && (ok <==> turn.crash == NoCrash && turn.key.kid !in r.keys)
  {
    var kid := turn.key.kid;
    if turn.crash != BeforeCreate && kid !in r.keys {
      var created, readAt := r.keys[kid := PendingRow(purpose, turn.key)], r.now + turn.toRead;
      NewRowIsNotActive(r.keys, kid, PendingRow(purpose, turn.key));
      WhoIsActiveAfter(created, purpose, kid, readAt, readAt + turn.toCommit, overlap);
      hide ActivateTx, IsActive;
    }
  }

  ghost predicate NoRepeats(purposes: seq<Purpose>) {
    forall i, j :: 0 <= i < j < |purposes| ==> purposes[i] != purposes[j]
  }

  /**
   What a command that completes has done: each of its purposes now has, as its one active key, the
   key of that turn, or for `init` the one it had; every other purpose has the active key it had.
   */
  lemma {:induction false} LoopActivates(r: Registry, purposes: seq<Purpose>, turns: seq<Turn>, skip: bool, overlap: int)
    requires |turns| == |purposes| && AtMostOneActive(r.keys) && NoRepeats(purposes) && Loop(r, purposes, turns, skip, overlap).1
    ensures var r' := Loop(r, purposes, turns, skip, overlap).0;
            && (forall i :: 0 <= i < |purposes| ==>
                  if skip && HasActive(r.keys, purposes[i]) then SameActive(r.keys, r'.keys, purposes[i])
                  else Sole(r'.keys, purposes[i], turns[i].key.kid))
            && (forall p :: p !in purposes ==> SameActive(r.keys, r'.keys, p))
    decreases |purposes|
  {
    hide IsActive, AtMostOneActive, Promote;
    if |purposes| > 0 {
      var p, rest := purposes[0], purposes[1..];
      var r1 := if skip && HasActive(r.keys, p) then r else Promote(r, p, turns[0], overlap).0;
      PromoteKeepsAtMostOne(r, p, turns[0], overlap);
      PromoteActivates(r, p, turns[0], overlap);
      LoopActivates(r1, rest, turns[1..], skip, overlap);
      var keys := Loop(r1, rest, turns[1..], skip, overlap).0.keys;
      assert p !in rest && purposes == [p] + rest;
      forall q | q != p ensures SameActive(r.keys, r1.keys, q) && (HasActive(r.keys, q) <==> HasActive(r1.keys, q)) {
        if HasActive(r.keys, q) {
          var k :| IsActive(r.keys, q, k);
          assert IsActive(r1.keys, q, k);
        }
      }
      forall q | q !in purposes ensures SameActive(r.keys, keys, q) {
        assert q != p && q !in rest;
        assert SameActive(r.keys, r1.keys, q) && SameActive(r1.keys, keys, q);
      }
      forall i | 0 <= i < |purposes|
        ensures if skip && HasActive(r.keys, purposes[i]) then SameActive(r.keys, keys, purposes[i]) else Sole(keys, purposes[i], turns[i].key.kid)
      {
        if i > 0 {
          assert purposes[i] == rest[i - 1] && turns[i] == turns[1..][i - 1];
        }
      }
    }
  }

  /** `rotate` works through the purpose it is given, or both; `init` through both. */
  lemma PurposesOfCommands(only: Option<Purpose>, p: Purpose)
    ensures p in PURPOSES <==> p == TokenSigning || p == TokenEncryption
    ensures p in Chosen(only) <==> if only.Some? then p == only.value else p == TokenSigning || p == TokenEncryption
    ensures NoRepeats(PURPOSES) && NoRepeats(Chosen(only))
  {
  }

  lemma RevokeKeepsInv(keys: Keys, kid: string, reason: string, at: int)
    requires Inv(keys)
    ensures Inv(AfterRevoke(keys, kid, reason, at)) && Forward(keys, AfterRevoke(keys, kid, reason, at))
    ensures kid in keys && keys[kid].state != Active ==> AfterRevoke(keys, kid, reason, at)[kid].wrappedKey == None
  {
    var after := AfterRevoke(keys, kid, reason, at);
    assert forall p, k :: IsActive(after, p, k) <==> IsActive(keys, p, k);
    forall k | k in keys ensures k in after && RowForward(keys[k], after[k]) && RowOk(after[k]) {
      assert RowOk(keys[k]);
    }
    forall p | HasActive(keys, p) ensures HasActive(after, p) {
      var k :| IsActive(keys, p, k);
      assert IsActive(after, p, k);
    }
  }

  // ---------------------------------------------------------------- every run, statement by statement

  /** One statement of a command, a command cut short, or time passing. */
  datatype Step =
    | Create(purpose: Purpose, key: NewKey)
    | ReadClock(purpose: Purpose, kid: string)
    | Commit
    | Stop
    | RevokeKey(kid: string, reason: string)
    | Wait(ms: nat)

  ghost predicate IsPending(keys: Keys, purpose: Purpose, kid: string) {
    kid in keys && keys[kid].purpose == purpose && keys[kid].state == Pending
  }

  /**
   `activate` reads the clock, then commits; everything else may read the table in between. A
   statement of another command does nothing while an activation is in flight, and a duplicate
   kid or a key that is not pending is refused.
   */
  ghost function Do(r: Registry, s: Step, overlap: int): Registry {
    match s
    case Create(purpose, key) =>
      if r.activating.Some? || key.kid in r.keys then r else r.(keys := r.keys[key.kid := PendingRow(purpose, key)])
    case ReadClock(purpose, kid) =>
      if r.activating.Some? || !IsPending(r.keys, purpose, kid) then r else r.(activating := Some(Activation(purpose, kid, r.now)))
    case Commit =>
      if r.activating.None? || r.activating.value.kid !in r.keys then r
      else
        var a := r.activating.value;
        Registry(r.now, ActivateTx(r.keys, a.purpose, a.kid, a.readAt, r.now, overlap), None)
    case Stop => r.(activating := None)
    case RevokeKey(kid, reason) => if r.activating.Some? then r else r.(keys := AfterRevoke(r.keys, kid, reason, r.now))
    case Wait(ms) => r.(now := r.now + ms)
  }

  ghost function Run(r: Registry, steps: seq<Step>, overlap: int): Registry
    decreases |steps|
  {
    if |steps| == 0 then r else Run(Do(r, steps[0], overlap), steps[1..], overlap)
  }

  lemma {:induction false} RunSplits(r: Registry, a: seq<Step>, b: seq<Step>, overlap: int)
    ensures Run(r, a + b, overlap) == Run(Run(r, a, overlap), b, overlap)
    decreases |a|
  {
    hide Do;
    if |a| == 0 {
      assert a + b == b;
    } else {
      assert (a + b)[1..] == a[1..] + b;
      RunSplits(Do(r, a[0], overlap), a[1..], b, overlap);
    }
  }

  /** The statements of one turn. */
  function TurnSteps(purpose: Purpose, turn: Turn, duplicate: bool): seq<Step> {
    if turn.crash == BeforeCreate || duplicate then []
    else
      [Create(purpose, turn.key), Wait(turn.toRead)] +
      match turn.crash
      case AfterCreate => []
      case BeforeCommit => [ReadClock(purpose, turn.key.kid), Wait(turn.toCommit), Stop]
      case _ => [ReadClock(purpose, turn.key.kid), Wait(turn.toCommit), Commit]
  }

  lemma RunTwo(r: Registry, a: Step, b: Step, overlap: int)
    ensures Run(r, [a, b], overlap) == Do(Do(r, a, overlap), b, overlap)
  {
    hide Do;
    assert [a, b][1..] == [b] && [b][1..] == [];
    assert Run(Do(Do(r, a, overlap), b, overlap), [], overlap) == Do(Do(r, a, overlap), b, overlap);
  }

  lemma RunThree(r: Registry, a: Step, b: Step, c: Step, overlap: int)
    ensures Run(r, [a, b, c], overlap) == Do(Do(Do(r, a, overlap), b, overlap), c, overlap)
  {
    hide Do;
    assert [a, b, c][1..] == [b, c];
    RunTwo(Do(r, a, overlap), b, c, overlap);
  }

  lemma PromoteIsSteps(r: Registry, purpose: Purpose, turn: Turn, overlap: int)
    requires r.activating.None?
    ensures Run(r, TurnSteps(purpose, turn, turn.key.kid in r.keys), overlap) == Promote(r, purpose, turn, overlap).0
  {
    hide ActivateTx, Run;
    var kid := turn.key.kid;
    if turn.crash == BeforeCreate || kid in r.keys {
      assert Run(r, [], overlap) == r by { RunNone(r, overlap); }
    } else {
      var head, read, pause := [Create(purpose, turn.key), Wait(turn.toRead)], ReadClock(purpose, kid), Wait(turn.toCommit);
      var r1 := Do(Do(r, head[0], overlap), head[1], overlap);
      RunTwo(r, head[0], head[1], overlap);
      RunNone(r1, overlap);
      RunThree(r1, read, pause, Stop, overlap);
      RunThree(r1, read, pause, Commit, overlap);
      RunSplits(r, head, [], overlap);
      RunSplits(r, head, [read, pause, Stop], overlap);
      RunSplits(r, head, [read, pause, Commit], overlap);
    }
  }

  lemma RunNone(r: Registry, overlap: int)
    ensures Run(r, [], overlap) == r
  {
  }

  /** Every command is a series of statements, none of which revokes a key. */
  lemma {:induction false} CommandIsSteps(r: Registry, purposes: seq<Purpose>, turns: seq<Turn>, skip: bool, overlap: int) returns (steps: seq<Step>)
    requires r.activating.None? && |turns| == |purposes|
    ensures Run(r, steps, overlap) == Loop(r, purposes, turns, skip, overlap).0
    ensures forall i :: 0 <= i < |steps| ==> !steps[i].RevokeKey?
    decreases |purposes|
  {
    hide Promote, Run;
    if |purposes| == 0 {
      RunNone(r, overlap);
      steps := [];
    } else if skip && HasActive(r.keys, purposes[0]) {
      steps := CommandIsSteps(r, purposes[1..], turns[1..], skip, overlap);
    } else {
      var (r1, ok) := Promote(r, purposes[0], turns[0], overlap);
      steps := TurnSteps(purposes[0], turns[0], turns[0].key.kid in r.keys);
      PromoteIsSteps(r, purposes[0], turns[0], overlap);
      PromoteEndsIdle(r, purposes[0], turns[0], overlap);
      if ok {
        var rest := CommandIsSteps(r1, purposes[1..], turns[1..], skip, overlap);
        RunSplits(r, steps, rest, overlap);
        steps := steps + rest;
      }
    }
  }

  lemma PromoteEndsIdle(r: Registry, purpose: Purpose, turn: Turn, overlap: int)
    requires r.activating.None?
    ensures Promote(r, purpose, turn, overlap).0.activating.None?
  {
  }

  /** What holds at every moment, also while an activation is in flight. */
  ghost predicate Sound(r: Registry) {
    && Inv(r.keys)
    && (r.activating.Some? ==>
          IsPending(r.keys, r.activating.value.purpose, r.activating.value.kid) && r.activating.value.readAt <= r.now)
  }

  lemma StepKeepsSound(r: Registry, s: Step, overlap: int)
    requires Sound(r)
    ensures var r' := Do(r, s, overlap); Sound(r') && Forward(r.keys, r'.keys) && r.now <= r'.now
  {
    hide Inv, Forward, ActivateTx;
    NothingIsForward(r.keys);
    match s
    case Create(purpose, key) =>
      if r.activating.None? && key.kid !in r.keys {
        CreateKeepsInv(r.keys, purpose, key);
      }
    case Commit =>
      if r.activating.Some? {
        var a := r.activating.value;
        ActivateKeepsInv(r.keys, a.purpose, a.kid, a.readAt, r.now, overlap);
      }
    case RevokeKey(kid, reason) => RevokeKeepsInv(r.keys, kid, reason, r.now);
    case _ =>
  }

  /**
   Along every run of the commands' statements, cut short wherever that can happen: at most one
   key per purpose is active, the table's constraints hold, active keys carry no end, revoked keys
   hold no material; no row is lost, states only move forward, a revoked row never changes again,
   and a purpose that has an active key always has one.
   */
  lemma {:induction false} RunKeepsSound(r: Registry, steps: seq<Step>, overlap: int)
    requires Sound(r)
    ensures var r' := Run(r, steps, overlap); Sound(r') && Forward(r.keys, r'.keys) && r.now <= r'.now
    decreases |steps|
  {
    hide Sound, Forward, Do;
    NothingIsForward(r.keys);
    if |steps| > 0 {
      var r1 := Do(r, steps[0], overlap);
      StepKeepsSound(r, steps[0], overlap);
      RunKeepsSound(r1, steps[1..], overlap);
      ForwardTrans(r.keys, r1.keys, Run(r1, steps[1..], overlap).keys);
    }
  }

  ghost predicate ExactlyOneActive(keys: Keys, purpose: Purpose) {
    exists kid :: IsActive(keys, purpose, kid) && forall k :: IsActive(keys, purpose, k) ==> k == kid
  }

  /** From an empty table and whatever has happened, once an `init` completes every purpose has exactly one active key, for good. */
  lemma OneActiveKeyOnceInitialised(now: int, before: seq<Step>, turns: seq<Turn>, after: seq<Step>, overlap: int)
    requires |turns| == |PURPOSES| && Run(Registry(now, map[], None), before, overlap).activating.None?
    requires Loop(Run(Registry(now, map[], None), before, overlap), PURPOSES, turns, true, overlap).1
    ensures var r := Loop(Run(Registry(now, map[], None), before, overlap), PURPOSES, turns, true, overlap).0;
            forall p :: p in PURPOSES ==> ExactlyOneActive(Run(r, after, overlap).keys, p)
  {
    hide Run, Loop, IsActive, RowOk, RowForward;
    var r0 := Run(Registry(now, map[], None), before, overlap);
    EmptyInv();
    RunKeepsSound(Registry(now, map[], None), before, overlap);
    LoopKeepsInv(r0, PURPOSES, turns, true, overlap);
    var steps := CommandIsSteps(r0, PURPOSES, turns, true, overlap);
    RunKeepsSound(r0, steps, overlap);
    RunKeepsSound(Loop(r0, PURPOSES, turns, true, overlap).0, after, overlap);
  }

  lemma EmptyInv()
    ensures Inv(map[])
  {
  }

  // ---------------------------------------------------------------- what becomes of an active key

  /** No statement of the run revokes `kid`. */
  ghost predicate Spares(steps: seq<Step>, kid: string) {
    forall i :: 0 <= i < |steps| && steps[i].RevokeKey? ==> steps[i].kid != kid
  }

  /** The earliest clock from which the end of a key of this purpose can still be counted. */
  function Since(r: Registry, purpose: Purpose): int {
    if r.activating.Some? && r.activating.value.purpose == purpose then r.activating.value.readAt else r.now
  }

  /** The clock a retired key's end was counted from. */
  function ReadAt(row: KeyRow, overlap: int): int
    requires row.notAfter.Some?
  {
    row.notAfter.value - overlap * 1000
  }

  /**
   Still active; or retired, by an activation that read the clock no earlier than `since` and
   committed, at `retiringAt`, no later than `until`.
   */
  ghost predicate GoodFor(row: KeyRow, since: int, until: int, overlap: int) {
    || (row.state == Active && row.notAfter.None?)
    || (row.state == Retiring && row.notAfter.Some? && row.retiringAt.Some?
        && since <= ReadAt(row, overlap) <= row.retiringAt.value <= until)
  }

  ghost predicate Serves(r: Registry, kid: string, since: int, overlap: int) {
    kid in r.keys && GoodFor(r.keys[kid], since, r.now, overlap) && since <= Since(r, r.keys[kid].purpose)
  }

  lemma StepServes(r: Registry, s: Step, overlap: int, kid: string, since: int)
    requires Sound(r) && Serves(r, kid, since, overlap) && (s.RevokeKey? ==> s.kid != kid)
    ensures Serves(Do(r, s, overlap), kid, since, overlap)
  {
    hide AtMostOneActive, RowOk;
  }

  /**
   An active key stays good through any number of rotations: unless it is revoked, it is still
   active, or it was retired since and ends exactly one overlap after the clock its retirement
   read, which is never later than the recorded `retiringAt` and, unless an activation of its
   purpose was already in flight, never earlier than now.
   */
  lemma {:induction false} ActiveKeyOutlivesRotations(r: Registry, steps: seq<Step>, overlap: int, kid: string, since: int)
    requires Sound(r) && Serves(r, kid, since, overlap) && Spares(steps, kid)
    ensures Serves(Run(r, steps, overlap), kid, since, overlap)
    decreases |steps|
  {
    hide Sound, Serves, Do, Forward;
    if |steps| > 0 {
      StepKeepsSound(r, steps[0], overlap);
      StepServes(r, steps[0], overlap, kid, since);
      SparesRest(steps, kid);
      ActiveKeyOutlivesRotations(Do(r, steps[0], overlap), steps[1..], overlap, kid, since);
    }
  }

  lemma SparesRest(steps: seq<Step>, kid: string)
    requires |steps| > 0 && Spares(steps, kid)
    ensures Spares(steps[1..], kid)
  {
  }
}
