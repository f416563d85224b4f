/** The set-code authorisations of a transaction: the EIP-7702 loop of core/state_transition.go.

    Signature recovery is not modelled: an authorisation carries the authority that its signature recovers
    to, or none.
 */
module Authorizations {
  import opened Words
  import opened World

  const PER_EMPTY_ACCOUNT_COST := 25000
  const PER_AUTH_BASE_COST := 12500

  datatype Authorization = Authorization(
    chainID: Option<u256>,
    authority: Option<Address>,
    nonce: u64,
    target: Address)

  // Steps 1 and 2: the chain matches, and the signature recovers.
  predicate Recovered(chainID: u256, auth: Authorization) {
    (auth.chainID.None? || auth.chainID.value == 0 || auth.chainID.value == chainID) && auth.authority.Some?
  }

  // Steps 4 and 5: no foreign code, and the right nonce.
  predicate Accepts(w: World, chainID: u256, auth: Authorization) {
    && Recovered(chainID, auth)
    && !w.CodeOf(auth.authority.value).Contract?
    && w.Nonce(auth.authority.value) == auth.nonce
  }

  function CodeFor(target: Address): Code {
    if target == ZERO_ADDRESS then NoCode else Delegated(target)
  }

  // What one authorisation does to the state.
  function Apply(w: World, chainID: u256, auth: Authorization): World {
    if !Accepts(w, chainID, auth) then w else
      var a := auth.authority.value;
      var w1 := if a in w.exist then w.AddRefund(PER_EMPTY_ACCOUNT_COST - PER_AUTH_BASE_COST) else w;
      w1.SetCode(a, CodeFor(auth.target)).SetNonce(a, Wrap64(auth.nonce + 1))
  }

  function ApplyAll(w: World, chainID: u256, auths: seq<Authorization>): World
    decreases |auths|
  {
    if auths == [] then w
    else Apply(ApplyAll(w, chainID, auths[..|auths| - 1]), chainID, auths[|auths| - 1])
  }

  // Entry i takes effect when the list is processed in order.
  predicate Effective(w: World, chainID: u256, auths: seq<Authorization>, i: nat)
    requires i < |auths|
  {
    Accepts(ApplyAll(w, chainID, auths[..i]), chainID, auths[i])
  }

  predicate EffectiveFor(w: World, chainID: u256, auths: seq<Authorization>, i: nat, a: Address)
    requires i < |auths|
  {
    Effective(w, chainID, auths, i) && auths[i].authority == Some(a)
  }

  // The number of entries that take effect for authority a.
  function Count(w: World, chainID: u256, auths: seq<Authorization>, a: Address): nat
    decreases |auths|
  {
    if auths == [] then 0 else
      var n := |auths| - 1;
      Count(w, chainID, auths[..n], a) + if EffectiveFor(w, chainID, auths, n, a) then 1 else 0
  }

  // The loop over the authorisations. It also collects the recovered authorities, skipped or not.
  method ApplyAuthorizations(db: StateDb, chainID: u256, auths: seq<Authorization>) returns (verified: seq<Address>)
    modifies db
    ensures db.w == ApplyAll(old(db.w), chainID, auths)
    ensures forall a :: a in verified <==> exists i :: 0 <= i < |auths| && Recovered(chainID, auths[i]) && auths[i].authority == Some(a)
  {
    hide Apply;
    verified := [];
    var i := 0;
    while i < |auths|
      invariant 0 <= i <= |auths|
      invariant db.w == ApplyAll(old(db.w), chainID, auths[..i])
      invariant forall a :: a in verified <==> exists j :: 0 <= j < i && Recovered(chainID, auths[j]) && auths[j].authority == Some(a)
    {
      var auth := auths[i];
      assert auths[..i + 1][..i] == auths[..i];
      assert ApplyAll(old(db.w), chainID, auths[..i + 1]) == Apply(db.w, chainID, auth);
      if Recovered(chainID, auth) {
        verified := verified + [auth.authority.value];
      }
      ApplyOne(db, chainID, auth);
      i := i + 1;
    }
    assert auths[..i] == auths;
  }

  // The body of the loop, step by step.
  method ApplyOne(db: StateDb, chainID: u256, auth: Authorization)
    modifies db
    ensures db.w == Apply(old(db.w), chainID, auth)
  {
    if auth.chainID.Some? && auth.chainID.value != 0 && auth.chainID.value != chainID {
      return;
    }
    if auth.authority.None? {
      return;
    }
    var authority := auth.authority.value;
    if db.w.CodeOf(authority) == Contract {
      return;
    }
    var authorityNonce: int := db.w.Nonce(authority);
    if authorityNonce != auth.nonce {
      return;
    }
    if authority in db.w.exist {
      db.w := db.w.AddRefund(PER_EMPTY_ACCOUNT_COST - PER_AUTH_BASE_COST);
    }
    if auth.target == ZERO_ADDRESS {
      db.w := db.w.SetCode(authority, NoCode);
    } else {
      db.w := db.w.SetCode(authority, Delegated(auth.target));
    }
    db.w := db.w.SetNonce(authority, Wrap64(authorityNonce + 1));
  }

  // ----- What the list as a whole does -----

  lemma Shorter(w: World, chainID: u256, auths: seq<Authorization>, n: nat)
    requires n <= |auths|
    ensures forall i :: 0 <= i < n ==> Effective(w, chainID, auths[..n], i) == Effective(w, chainID, auths, i)
    ensures forall i, a :: 0 <= i < n ==> EffectiveFor(w, chainID, auths[..n], i, a) == EffectiveFor(w, chainID, auths, i, a)
  {
    hide ApplyAll, Accepts;
    forall i | 0 <= i < n
      ensures Effective(w, chainID, auths[..n], i) == Effective(w, chainID, auths, i)
    {
      assert auths[..n][..i] == auths[..i];
    }
  }

  // Each authority's nonce rises by exactly the number of its effective entries, modulo 2^64.
  lemma {:induction false} NonceLaw(w: World, chainID: u256, auths: seq<Authorization>, a: Address)
    ensures ApplyAll(w, chainID, auths).Nonce(a) == Wrap64(w.Nonce(a) + Count(w, chainID, auths, a))
    decreases |auths|
  {
    hide Wrap64, Apply, Accepts;
    if auths == [] {
      Wrap64Small(w.Nonce(a));
    } else {
      var n := |auths| - 1;
      NonceLaw(w, chainID, auths[..n], a);
      ApplyNonce(ApplyAll(w, chainID, auths[..n]), chainID, auths[n], a);
      Wrap64Add(w.Nonce(a) + Count(w, chainID, auths[..n], a), 1);
    }
  }

  lemma ApplyNonce(w: World, chainID: u256, auth: Authorization, a: Address)
    ensures Apply(w, chainID, auth).Nonce(a) ==
            if Accepts(w, chainID, auth) && auth.authority == Some(a) then Wrap64(w.Nonce(a) + 1) else w.Nonce(a)
  {
  }

  lemma {:induction false} CountBound(w: World, chainID: u256, auths: seq<Authorization>, i: nat, a: Address)
    requires i <= |auths|
    ensures Count(w, chainID, auths[..i], a) <= Count(w, chainID, auths, a) <= Count(w, chainID, auths[..i], a) + |auths| - i
    decreases |auths|
  {
    var n := |auths| - 1;
    if i == |auths| {
      assert auths[..i] == auths;
    } else {
      CountBound(w, chainID, auths[..n], i, a);
      assert auths[..n][..i] == auths[..i];
    }
  }

  // The nonce of an effective entry is fixed by the effective entries before it.
  lemma EffectiveNonce(w: World, chainID: u256, auths: seq<Authorization>, i: nat, a: Address)
    requires i < |auths| && EffectiveFor(w, chainID, auths, i, a)
    ensures auths[i].nonce == Wrap64(w.Nonce(a) + Count(w, chainID, auths[..i], a))
  {
    NonceLaw(w, chainID, auths[..i], a);
  }

  const LAST_NONCE: u64 := TWO_64 - 1

  // The nonce rises exactly by the number of effective entries, if and only if no entry takes effect with the
  // last nonce.
  lemma NonceRises(w: World, chainID: u256, auths: seq<Authorization>, a: Address)
    ensures ApplyAll(w, chainID, auths).Nonce(a) == w.Nonce(a) + Count(w, chainID, auths, a)
            <==> forall i :: 0 <= i < |auths| && EffectiveFor(w, chainID, auths, i, a) ==> auths[i].nonce != LAST_NONCE
  {
    hide Wrap64, ApplyAll, Count, EffectiveFor;
    NonceLaw(w, chainID, auths, a);
    Wrap64Small(w.Nonce(a) + Count(w, chainID, auths, a));
    OverflowIff(w, chainID, auths, a);
  }

  // The nonce runs over exactly at an entry that takes effect with the last nonce.
  lemma {:induction false} OverflowIff(w: World, chainID: u256, auths: seq<Authorization>, a: Address)
    ensures w.Nonce(a) + Count(w, chainID, auths, a) < TWO_64
            <==> forall i :: 0 <= i < |auths| && EffectiveFor(w, chainID, auths, i, a) ==> auths[i].nonce != LAST_NONCE
    decreases |auths|
  {
    if auths != [] {
      var n := |auths| - 1;
      OverflowIff(w, chainID, auths[..n], a);
      Shorter(w, chainID, auths, n);
      hide ApplyAll, Accepts, Effective;
      if EffectiveFor(w, chainID, auths, n, a) {
        EffectiveNonce(w, chainID, auths, n, a);
        if w.Nonce(a) + Count(w, chainID, auths[..n], a) < TWO_64 {
          Wrap64Small(w.Nonce(a) + Count(w, chainID, auths[..n], a));
        }
      }
    }
  }

  // So no list without the last nonce for an authority makes its nonce wrap around.
  lemma NoLastNonce(w: World, chainID: u256, auths: seq<Authorization>, a: Address)
    requires forall auth <- auths :: auth.authority == Some(a) ==> auth.nonce != LAST_NONCE
    ensures ApplyAll(w, chainID, auths).Nonce(a) == w.Nonce(a) + Count(w, chainID, auths, a)
  {
    hide ApplyAll, Accepts, Effective, Count;
    NonceRises(w, chainID, auths, a);
  }

  // A list that does: the nonce of its authority falls from the last one to zero.
  lemma LastNonceWraps(a: Address, target: Address)
    ensures var w := World(map[], map[a := LAST_NONCE], map[], {}, 0);
            var auths := [Authorization(None, Some(a), LAST_NONCE, target)];
            EffectiveFor(w, 1, auths, 0, a) && ApplyAll(w, 1, auths).Nonce(a) == 0
  {
    var w := World(map[], map[a := LAST_NONCE], map[], {}, 0);
    var auths := [Authorization(None, Some(a), LAST_NONCE, target)];
    assert auths[..0] == [] && ApplyAll(w, 1, []) == w;
    assert ApplyAll(w, 1, auths) == Apply(w, 1, auths[0]);
  }

  // An (authority, nonce) pair takes effect at most once, even if the nonce wraps around.
  lemma AtMostOnce(w: World, chainID: u256, auths: seq<Authorization>, i: nat, j: nat, a: Address)
    requires i < j < |auths| <= TWO_64
    requires EffectiveFor(w, chainID, auths, i, a) && EffectiveFor(w, chainID, auths, j, a)
    ensures auths[i].nonce != auths[j].nonce
  {
    hide Wrap64, ApplyAll;
    EffectiveNonce(w, chainID, auths, i, a);
    EffectiveNonce(w, chainID, auths, j, a);
    var p, q := Count(w, chainID, auths[..i], a), Count(w, chainID, auths[..j], a);
    assert auths[..j][..i + 1] == auths[..i + 1] && auths[..i + 1][..i] == auths[..i];
    CountBound(w, chainID, auths[..j], i + 1, a);
    Shorter(w, chainID, auths, i + 1);
    assert Count(w, chainID, auths[..i + 1], a) == p + 1;
    assert p < q <= p + (j - i);
    ModDistinct(w.Nonce(a) + p, w.Nonce(a) + q);
  }

  lemma ModDistinct(x: nat, y: nat)
    requires x < y < x + TWO_64
    ensures Wrap64(x) != Wrap64(y)
  {
  }

  // ----- Which entries take effect -----

  // An entry before the i-th takes effect for authority a.
  ghost predicate Before(w: World, chainID: u256, auths: seq<Authorization>, i: nat, a: Address)
    requires i <= |auths|
  {
    exists j :: 0 <= j < i && EffectiveFor(w, chainID, auths, j, a)
  }

  lemma BeforeSnoc(w: World, chainID: u256, auths: seq<Authorization>, a: Address)
    requires auths != []
    ensures var n := |auths| - 1;
            && Before(w, chainID, auths[..n], n, a) == Before(w, chainID, auths, n, a)
            && (Before(w, chainID, auths, n + 1, a) <==> Before(w, chainID, auths, n, a) || EffectiveFor(w, chainID, auths, n, a))
  {
    hide EffectiveFor;
    Shorter(w, chainID, auths, |auths| - 1);
  }

  // Exactly the authorities with an effective entry have joined the accounts.
  lemma {:induction false} ExistLaw(w: World, chainID: u256, auths: seq<Authorization>, a: Address)
    ensures a in ApplyAll(w, chainID, auths).exist <==> a in w.exist || Before(w, chainID, auths, |auths|, a)
    decreases |auths|
  {
    if auths != [] {
      hide Before;
      ExistLaw(w, chainID, auths[..|auths| - 1], a);
      BeforeSnoc(w, chainID, auths, a);
    }
  }

  // Foreign code is neither made nor replaced.
  lemma {:induction false} ForeignCode(w: World, chainID: u256, auths: seq<Authorization>, a: Address)
    ensures ApplyAll(w, chainID, auths).CodeOf(a).Contract? <==> w.CodeOf(a).Contract?
    decreases |auths|
  {
    if auths != [] {
      ForeignCode(w, chainID, auths[..|auths| - 1], a);
    }
  }

  // Which entries take effect, on the initial state and the entries alone: the chain is any or this one, the
  // signature recovers to an account that had no foreign code, and the nonce is the initial one plus the number of
  // entries that took effect for the account before.
  lemma EffectiveIff(w: World, chainID: u256, auths: seq<Authorization>, i: nat)
    requires i < |auths|
    ensures Effective(w, chainID, auths, i) <==>
              && (auths[i].chainID == None || auths[i].chainID == Some(0) || auths[i].chainID == Some(chainID))
              && auths[i].authority.Some?
              && var a := auths[i].authority.value;
                 && !w.CodeOf(a).Contract?
                 && auths[i].nonce == (w.Nonce(a) + Count(w, chainID, auths[..i], a)) % 0x1_0000_0000_0000_0000
  {
    if auths[i].authority.Some? {
      NonceLaw(w, chainID, auths[..i], auths[i].authority.value);
      ForeignCode(w, chainID, auths[..i], auths[i].authority.value);
    }
  }

  // ----- The refund -----

  // The number of effective entries whose authority existed at the start or has an effective entry before.
  ghost function Refunds(w: World, chainID: u256, auths: seq<Authorization>): nat
    decreases |auths|
  {
    if auths == [] then 0 else
      var n := |auths| - 1;
      Refunds(w, chainID, auths[..n]) + if Existed(w, chainID, auths, n) then 1 else 0
  }

  ghost predicate Existed(w: World, chainID: u256, auths: seq<Authorization>, i: nat)
    requires i < |auths|
  {
    Effective(w, chainID, auths, i) && var a := auths[i].authority.value; a in w.exist || Before(w, chainID, auths, i, a)
  }

  // The refund counter rises by 12500 for each of them, modulo 2^64.
  lemma {:induction false} RefundLaw(w: World, chainID: u256, auths: seq<Authorization>)
    ensures ApplyAll(w, chainID, auths).refund == (w.refund + 12500 * Refunds(w, chainID, auths)) % 0x1_0000_0000_0000_0000
    decreases |auths|
  {
    hide Before, Apply;
    if auths == [] {
      Wrap64Small(w.refund);
    } else {
      var n := |auths| - 1;
      RefundLaw(w, chainID, auths[..n]);
      ApplyRefund(ApplyAll(w, chainID, auths[..n]), chainID, auths[n]);
      if Effective(w, chainID, auths, n) {
        ExistLaw(w, chainID, auths[..n], auths[n].authority.value);
        BeforeSnoc(w, chainID, auths, auths[n].authority.value);
      }
      Wrap64Add(w.refund + 12500 * Refunds(w, chainID, auths[..n]), 12500);
    }
  }

  lemma ApplyRefund(w: World, chainID: u256, auth: Authorization)
    ensures Apply(w, chainID, auth).refund ==
            if Accepts(w, chainID, auth) && auth.authority.value in w.exist then Wrap64(w.refund + 12500) else w.refund
  {
  }

  // The final code is that of the last effective entry for the authority.
  lemma {:induction false} CodeLaw(w: World, chainID: u256, auths: seq<Authorization>, i: nat, a: Address)
    requires i < |auths| && EffectiveFor(w, chainID, auths, i, a)
    requires forall j :: i < j < |auths| ==> !EffectiveFor(w, chainID, auths, j, a)
    ensures ApplyAll(w, chainID, auths).CodeOf(a) == if auths[i].target.id == 0 then NoCode else Delegated(auths[i].target)
    decreases |auths|
  {
    var n := |auths| - 1;
    if i < n {
      Shorter(w, chainID, auths, n);
      assert !EffectiveFor(w, chainID, auths, n, a);
      CodeLaw(w, chainID, auths[..n], i, a);
    }
  }

  // An account without an effective entry keeps nonce, code and existence; balances never change.
  lemma {:induction false} Untouched(w: World, chainID: u256, auths: seq<Authorization>, a: Address)
    requires forall j :: 0 <= j < |auths| ==> !EffectiveFor(w, chainID, auths, j, a)
    ensures var w' := ApplyAll(w, chainID, auths);
            w'.Nonce(a) == w.Nonce(a) && w'.CodeOf(a) == w.CodeOf(a) && (a in w'.exist <==> a in w.exist)
    decreases |auths|
  {
    if auths != [] {
      var n := |auths| - 1;
      Shorter(w, chainID, auths, n);
      assert !EffectiveFor(w, chainID, auths, n, a);
      Untouched(w, chainID, auths[..n], a);
    }
  }

  lemma {:induction false} BalancesKept(w: World, chainID: u256, auths: seq<Authorization>)
    ensures ApplyAll(w, chainID, auths).balance == w.balance
    decreases |auths|
  {
    if auths != [] {
      BalancesKept(w, chainID, auths[..|auths| - 1]);
    }
  }
}
