/** Expiry of holds as a plain filter on the books: the reference that the heap-driven
  * CloseExpired is proved to compute.  It composes over time and commutes with account
  * creation, which is why replay may expire holds at other moments than the live loop did. */
module Expiry {
  import opened Core
  import opened Engine
  import opened Holds

  /** A hold with a timeout is expired once the logical clock reaches its stored deadline. */
  predicate Expired(t: Transfer, clock: int) {
    t.timeout > 0 && Deadline(t) <= clock
  }

  function ExpiredIds(holds: map<Id, Transfer>, clock: int): set<Id> {
    set k | k in holds && Expired(holds[k], clock)
  }

  function Minus(x: U128, y: nat): U128 { if y <= x then x - y else 0 }

  /** The account after all holds in `gone` have been given back. */
  ghost function Relieved(acc: Account, gone: map<Id, Transfer>): Account {
    acc.(pendingDebits := Minus(acc.pendingDebits, Held(gone, Debit, acc.id)),
         pendingCredits := Minus(acc.pendingCredits, Held(gone, Credit, acc.id)))
  }

  /** The books without the holds in `ids`, their reserves given back. */
  ghost function Drop(b: Books, ids: set<Id>): Books {
    Books(map k | k in b.accounts :: Relieved(b.accounts[k], Only(b.holds, ids)), b.holds - ids)
  }

  /** The books once every hold expired at `clock` is closed. */
  ghost function CloseAt(b: Books, clock: int): Books {
    Drop(b, ExpiredIds(b.holds, clock))
  }

  lemma HeldAtMost(holds: map<Id, Transfer>, part: set<Id>, side: Side, a: Id)
    ensures Held(Only(holds, part), side, a) <= Held(holds, side, a)
  {
    HeldSplit(holds, part, side, a);
  }

  lemma {:induction false} HeldByNone(holds: map<Id, Transfer>, side: Side, a: Id)
    requires forall k <- holds :: Party(holds[k], side) != a
    ensures Held(holds, side, a) == 0
    decreases holds.Keys
  {
    if holds != map[] {
      var k :| k in holds;
      HeldTakeOut(holds, k, side, a);
      HeldByNone(holds - {k}, side, a);
    }
  }

  lemma ExpiredSplit(holds: map<Id, Transfer>, clock: int, side: Side, a: Id)
    ensures Held(holds, side, a)
         == Held(Only(holds, ExpiredIds(holds, clock)), side, a) + Held(holds - ExpiredIds(holds, clock), side, a)
  {
    HeldSplit(holds, ExpiredIds(holds, clock), side, a);
  }

  /** Expiry gives back exactly what the closed holds reserved: every reserve keeps its surplus. */
  lemma CloseSurplus(b: Books, clock: int, side: Side, a: Id)
    requires Sound(b) && a in b.accounts
    ensures Surplus(CloseAt(b, clock), side, a) == Surplus(b, side, a)
  {
    ExpiredSplit(b.holds, clock, side, a);
    assert Held(b.holds, side, a) <= Reserved(b.accounts[a], side);
  }

  lemma CloseKeepsSound(b: Books, clock: int)
    requires Sound(b)
    ensures Sound(CloseAt(b, clock))
    ensures SameAccounts(b.accounts, CloseAt(b, clock).accounts)
    ensures forall k <- CloseAt(b, clock).holds :: !Expired(b.holds[k], clock)
  {
    var b' := CloseAt(b, clock);
    forall k | k in b'.holds
      ensures HoldOk(b', k)
    {
      assert HoldOk(b, k);
    }
    forall a, side | a in b'.accounts
      ensures Held(b'.holds, side, a) <= Reserved(b'.accounts[a], side)
    {
      CloseSurplus(b, clock, side, a);
      assert Held(b.holds, side, a) <= Reserved(b.accounts[a], side);
    }
  }

  /** Nothing is expired: nothing changes. */
  lemma CloseIdle(b: Books, clock: int)
    requires forall k <- b.holds :: !Expired(b.holds[k], clock)
    ensures CloseAt(b, clock) == b
  {
    assert ExpiredIds(b.holds, clock) == {};
    assert Only(b.holds, {}) == map[];
    assert CloseAt(b, clock).accounts == b.accounts;
  }

  /** Closing now and again later is closing later. */
  lemma CloseTwice(b: Books, clock: int, later: int)
    requires Sound(b) && clock <= later
    ensures CloseAt(CloseAt(b, clock), later) == CloseAt(b, later)
  {
    var now, all := ExpiredIds(b.holds, clock), ExpiredIds(b.holds, later);
    assert ExpiredIds(b.holds - now, later) == all - now;
    DropTwice(b, now, all);
  }

  lemma DropTwice(b: Books, now: set<Id>, all: set<Id>)
    requires Sound(b) && now <= all
    ensures Drop(Drop(b, now), all - now) == Drop(b, all)
  {
    hide Drop, Sound;
    var left, right := Drop(Drop(b, now), all - now), Drop(b, all);
    DropShape(b, now);
    DropShape(Drop(b, now), all - now);
    DropShape(b, all);
    forall a | a in b.accounts
      ensures left.accounts[a] == right.accounts[a]
    {
      DropTwiceAt(b, now, all, a);
    }
    assert left.accounts == right.accounts;
    assert b.holds - now - (all - now) == b.holds - all;
  }

  lemma DropTwiceAt(b: Books, now: set<Id>, all: set<Id>, a: Id)
    requires Sound(b) && now <= all && a in b.accounts
    ensures Drop(Drop(b, now), all - now).accounts[a] == Drop(b, all).accounts[a]
  {
    assert Only(b.holds - now, all - now) == Only(b.holds, all - now);
    RelievedTwice(b, now, all, a);
  }

  lemma RelievedTwice(b: Books, now: set<Id>, all: set<Id>, a: Id)
    requires Sound(b) && a in b.accounts && now <= all
    ensures Relieved(Relieved(b.accounts[a], Only(b.holds, now)), Only(b.holds, all - now))
         == Relieved(b.accounts[a], Only(b.holds, all))
  {
    HeldInStages(b, now, all, Debit, a);
    HeldInStages(b, now, all, Credit, a);
  }

  lemma HeldInStages(b: Books, now: set<Id>, all: set<Id>, side: Side, a: Id)
    requires Sound(b) && a in b.accounts && now <= all
    ensures Held(Only(b.holds, all), side, a)
         == Held(Only(b.holds, now), side, a) + Held(Only(b.holds, all - now), side, a)
    ensures Held(Only(b.holds, all), side, a) <= Reserved(b.accounts[a], side)
  {
    HeldSplit(Only(b.holds, all), now, side, a);
    assert Only(Only(b.holds, all), now) == Only(b.holds, now);
    assert Only(b.holds, all) - now == Only(b.holds, all - now);
    HeldAtMost(b.holds, all, side, a);
    assert Held(b.holds, side, a) <= Reserved(b.accounts[a], side);
  }

  /** Closing one more hold is releasing it, which cannot fail. */
  lemma DropOneMore(b: Books, gone: set<Id>, id: Id)
    requires Sound(b) && id in b.holds && id !in gone
    ensures ReleasePending(Drop(b, gone).accounts, b.holds[id]) == Posting(Drop(b, gone + {id}).accounts, None)
    ensures Drop(b, gone + {id}).holds == Drop(b, gone).holds - {id}
  {
    hide Drop, Sound, Less, ReleasePending;
    var t := b.holds[id];
    SoundHold(b, id);
    DropShape(b, gone);
    DropShape(b, gone + {id});
    var before, after := Drop(b, gone).accounts, Drop(b, gone + {id}).accounts;
    forall a | a in b.accounts
      ensures after[a] == Less(before[a], t, a) && before[a].id == a
      ensures Share(t, Debit, a) <= before[a].pendingDebits && Share(t, Credit, a) <= before[a].pendingCredits
    {
      DropOneMoreAt(b, gone, id, a);
    }
    ReleaseIsLess(before, after, t);
    assert b.holds - (gone + {id}) == b.holds - gone - {id};
  }

  lemma SoundHold(b: Books, id: Id)
    requires Sound(b) && id in b.holds
    ensures HoldOk(b, id)
  {
  }

  lemma DropShape(b: Books, gone: set<Id>)
    ensures Drop(b, gone).accounts.Keys == b.accounts.Keys
    ensures Drop(b, gone).holds == b.holds - gone
  {
  }

  lemma ReleaseIsLess(before: map<Id, Account>, after: map<Id, Account>, t: Transfer)
    requires t.debit != t.credit && t.debit in before && t.credit in before && after.Keys == before.Keys
    requires forall a <- before ::
               && after[a] == Less(before[a], t, a)
               && Share(t, Debit, a) <= before[a].pendingDebits && Share(t, Credit, a) <= before[a].pendingCredits
    ensures ReleasePending(before, t) == Posting(after, None)
  {
    var r := ReleasePending(before, t);
    assert t.debit in after && t.credit in after;
    forall a | a in before
      ensures r.accounts[a] == after[a]
    {
      assert a != t.debit && a != t.credit ==> after[a] == before[a];
    }
    assert r.accounts == after;
  }

  /** The account without the reserve of hold `t`. */
  function Less(acc: Account, t: Transfer, a: Id): Account {
    acc.(pendingDebits := Minus(acc.pendingDebits, Share(t, Debit, a)),
         pendingCredits := Minus(acc.pendingCredits, Share(t, Credit, a)))
  }

  lemma DropOneMoreAt(b: Books, gone: set<Id>, id: Id, a: Id)
    requires Sound(b) && id in b.holds && id !in gone && a in b.accounts
    ensures var t, before := b.holds[id], Drop(b, gone).accounts[a];
            && before.id == a
            && Share(t, Debit, a) <= before.pendingDebits && Share(t, Credit, a) <= before.pendingCredits
            && Drop(b, gone + {id}).accounts[a] == Less(before, t, a)
  {
    hide Sound, Held, Only, Share;
    SoundKey(b, a);
    HeldOneMore(b, gone, id, Debit, a);
    HeldOneMore(b, gone, id, Credit, a);
  }

  lemma SoundKey(b: Books, a: Id)
    requires Sound(b) && a in b.accounts
    ensures b.accounts[a].id == a
  {
  }

  lemma HeldOneMore(b: Books, gone: set<Id>, id: Id, side: Side, a: Id)
    requires Sound(b) && id in b.holds && id !in gone && a in b.accounts
    ensures Held(Only(b.holds, gone + {id}), side, a)
            == Held(Only(b.holds, gone), side, a) + Share(b.holds[id], side, a)
    ensures Held(Only(b.holds, gone + {id}), side, a) <= Reserved(b.accounts[a], side)
  {
    HeldTakeOut(Only(b.holds, gone + {id}), id, side, a);
    assert Only(b.holds, gone + {id}) - {id} == Only(b.holds, gone);
    HeldAtMost(b.holds, gone + {id}, side, a);
    assert Held(b.holds, side, a) <= Reserved(b.accounts[a], side);
  }

  lemma DropNothing(b: Books)
    ensures Drop(b, {}) == b
  {
    assert Only(b.holds, {}) == map[];
    assert Drop(b, {}).accounts == b.accounts;
  }

  /** Expiry moves no posted money. */
  lemma CloseConserves(b: Books, clock: int, ledger: U32)
    ensures LedgerTotal(CloseAt(b, clock).accounts, ledger) == LedgerTotal(b.accounts, ledger)
  {
    SamePostedSameTotal(b.accounts, CloseAt(b, clock).accounts, ledger);
  }

  /* ----- account creation ----- */

  /** Create: a new account joins; an id in use is left as it is. */
  function Create(b: Books, acc: Account): Books {
    if acc.id in b.accounts then b else b.(accounts := b.accounts[acc.id := acc])
  }

  lemma CreateKeepsSound(b: Books, acc: Account)
    requires Sound(b)
    ensures Sound(Create(b, acc))
  {
    var b' := Create(b, acc);
    forall k | k in b'.holds
      ensures HoldOk(b', k)
    {
      assert HoldOk(b, k);
    }
    forall a, side | a in b'.accounts
      ensures Held(b'.holds, side, a) <= Reserved(b'.accounts[a], side)
    {
      if a in b.accounts {
        assert Held(b.holds, side, a) <= Reserved(b.accounts[a], side);
      } else {
        NewcomerHoldsNothing(b, side, a);
      }
    }
  }

  lemma NewcomerHoldsNothing(b: Books, side: Side, a: Id)
    requires Sound(b) && a !in b.accounts
    ensures Held(b.holds, side, a) == 0
  {
    forall k | k in b.holds
      ensures Party(b.holds[k], side) != a
    {
      assert HoldOk(b, k);
    }
    HeldByNone(b.holds, side, a);
  }

  /** Creating an account and closing expired holds commute. */
  lemma CloseCreate(b: Books, acc: Account, clock: int)
    requires Sound(b)
    ensures CloseAt(Create(b, acc), clock) == Create(CloseAt(b, clock), acc)
  {
    if acc.id !in b.accounts {
      var gone := Only(b.holds, ExpiredIds(b.holds, clock));
      forall side
        ensures Held(gone, side, acc.id) == 0
      {
        NewcomerHoldsNothing(b, side, acc.id);
        ExpiredSplit(b.holds, clock, side, acc.id);
      }
      assert Relieved(acc, gone) == acc by {
        assert Held(gone, Debit, acc.id) == 0 && Held(gone, Credit, acc.id) == 0;
      }
      assert CloseAt(Create(b, acc), clock).accounts == Create(CloseAt(b, clock), acc).accounts;
    }
  }

  /** A new account brings in its own opening balance and nothing else. */
  lemma CreateTotal(b: Books, acc: Account, ledger: U32)
    ensures LedgerTotal(Create(b, acc).accounts, ledger)
         == LedgerTotal(b.accounts, ledger) + (if acc.id in b.accounts then 0 else Net(acc, ledger))
  {
    if acc.id !in b.accounts {
      var after := Create(b, acc).accounts;
      TotalTakeOut(after, acc.id, ledger);
      assert after - {acc.id} == b.accounts;
    }
  }
}
