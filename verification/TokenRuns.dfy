// What each token authenticates, over rotations, restarts and everything in between.
module TokenRuns {
  import opened Basics
  import opened Types
  import opened Control
  import opened Lifecycle

  // The hash a kind has, and the hash it gets.
  function HashOf(t: TokenState, kind: TokenKind): Option<Hash> {
    match kind
    case Admin => t.adminHash
    case User => t.userHash
  }

  // Two kinds with one hash authenticate as Admin; otherwise each hash authenticates as its kind.
  lemma AuthenticatesAs(t: TokenState, hash: Hash)
    ensures t.Authenticate(hash) == Some(Admin) <==> t.adminHash == Some(hash)
    ensures t.Authenticate(hash) == Some(User) <==> t.userHash == Some(hash) && t.adminHash != Some(hash)
    ensures t.Authenticate(hash) == None <==> t.adminHash != Some(hash) && t.userHash != Some(hash)
  {
  }

  // A rotation gives its kind the new hash and leaves the other kind's alone, in memory and in the store.
  lemma RotationSparesOtherKind(s: Relay, kind: TokenKind, hash: Option<Hash>, now: i64)
    ensures var t := ReplaceToken(s, kind, hash, now);
            && t.tokens == (if kind.Admin? then TokenState(hash, s.tokens.userHash) else TokenState(s.tokens.adminHash, hash))
            && t.storedTokens == Some(t.tokens)
            && (kind.User? ==> forall h: Hash :: t.tokens.Authenticate(h) == Some(Admin) <==> s.tokens.Authenticate(h) == Some(Admin))
            && (kind.Admin? ==> forall h: Hash ::
                  && (s.tokens.Authenticate(h) == Some(User) ==> t.tokens.Authenticate(h) == if hash == Some(h) then Some(Admin) else Some(User))
                  && (t.tokens.Authenticate(h) == Some(User) ==> s.tokens.userHash == Some(h)))
  {
  }

  // The first start on an empty database stores the environment's hashes, each for its own kind; any later
  // start keeps what is stored.
  lemma StartTokens(s: Relay, adminHash: Hash, userHash: Hash)
    ensures var t := Restarted(s, adminHash, userHash);
            && t.storedTokens == Some(t.tokens)
            && (s.storedTokens.Some? ==> t.tokens == s.storedTokens.value)
            && (s.storedTokens.None? ==>
                  && t.tokens.Authenticate(adminHash) == Some(Admin)
                  && t.tokens.Authenticate(userHash) == (if userHash == adminHash then Some(Admin) else Some(User))
                  && forall h: Hash :: t.tokens.Authenticate(h).Some? ==> h == adminHash || h == userHash)
  {
  }

  lemma HandlingKeepsTokens(register: Registrar, s: Relay, me: Conn, f: Frame, clock: Clock, goodbye: bool)
    ensures HandleFrame(register, s, me, f, clock).s.tokens == s.tokens
    ensures Exit(s, me, goodbye, clock.later).tokens == s.tokens
  {
  }

  lemma StepKeepsHash(register: Registrar, w: World, a: Label, v: World, kind: TokenKind)
    requires Next(register, w, a, v) && Durable(w.s) && !(a.Rotate? && a.kind == kind)
    ensures HashOf(v.s.tokens, kind) == HashOf(w.s.tokens, kind)
  {
    match a
    case Receive(h, f, clock) =>
      HandlingKeepsTokens(register, w.s, w.conns[h], f, clock, true);
      var t := HandleFrame(register, w.s, w.conns[h], f, clock).s;
      HandlingKeepsTokens(register, t, w.conns[h], f, clock, true);
      HandlingKeepsTokens(register, t, w.conns[h], f, clock, false);
    case Rotate(k, hash, now) => RotationSparesOtherKind(w.s, k, hash, now);
    case _ =>
  }

  // Between two of its own rotations a kind keeps its hash, through frames, lost connections, rotations of
  // the other kind and restarts.
  lemma {:induction false} HashKeptBetweenRotations(register: Registrar, ws: seq<World>, acts: seq<Label>, i: nat, j: nat, kind: TokenKind)
    requires IsRun(register, ws, acts) && Durable(ws[0].s) && i <= j < |ws|
    requires forall k {:trigger acts[k]} | i <= k < j :: !(acts[k].Rotate? && acts[k].kind == kind)
    ensures HashOf(ws[j].s.tokens, kind) == HashOf(ws[i].s.tokens, kind)
  {
    if i < j {
      HashKeptBetweenRotations(register, ws, acts, i, j - 1, kind);
      AlwaysDurable(register, ws, acts, j - 1, j - 1);
      assert Next(register, ws[j - 1], acts[j - 1], ws[j - 1 + 1]);
      StepKeepsHash(register, ws[j - 1], acts[j - 1], ws[j], kind);
    }
  }

  // So until its next rotation, every hash that authenticated as Admin does, and no other; and every hash
  // that authenticated as User does, unless it has become the admin hash, and none that was not stored.
  lemma AuthenticationKept(register: Registrar, ws: seq<World>, acts: seq<Label>, i: nat, j: nat, kind: TokenKind, hash: Hash)
    requires IsRun(register, ws, acts) && Durable(ws[0].s) && i <= j < |ws|
    requires forall k {:trigger acts[k]} | i <= k < j :: !(acts[k].Rotate? && acts[k].kind == kind)
    ensures var t, u := ws[i].s.tokens, ws[j].s.tokens;
            && (kind.Admin? ==> (u.Authenticate(hash) == Some(Admin) <==> t.Authenticate(hash) == Some(Admin)))
            && (kind.User? && t.Authenticate(hash) == Some(User) ==>
                  u.Authenticate(hash) == if u.adminHash == Some(hash) then Some(Admin) else Some(User))
            && (kind.User? && u.Authenticate(hash) == Some(User) ==> t.userHash == Some(hash))
  {
    HashKeptBetweenRotations(register, ws, acts, i, j, kind);
  }
}
