/** The balances of one block's transactions (`VerifyBlockTx` and the balance check of `VerifyTransaction`). */
module BlockLedger {
  import opened Common

  datatype Errno =
    | OK
    | ERR_TRANSACTION_INVALID
    | ERR_TRANSACTION_INPUT_INVALID
    | ERR_MISSING_PREV
    | ERR_TRANSACTION_REJECTED
    | ERR_BLOCK_TRANSACTIONS_INVALID

  datatype DestState = DestState(balance: nat, txNonce: nat)

  const NULL_STATE := DestState(0, 0)

  datatype TxType = TX_VOTE_REWARD | TX_CERT | TX_OTHER

  /**
   * A transaction; `zeroNonceAllowed` says that it may have nonce 0 (the function deployment signer past branch 002)
   * and `otherChecks` that the checks of `VerifyTransaction` on signature, templates and forks pass.
   */
  datatype Tx = Tx(txType: TxType, from: Dest, to: Dest, amount: nat, fee: nat, nonce: nat, zeroNonceAllowed: bool,
                   otherChecks: bool)

  type Ledger = map<Dest, DestState>

  /** `RetrieveDestState`, with the null state for an unknown address. */
  function Look(m: Ledger, d: Dest): DestState
  {
    if d in m then m[d] else NULL_STATE
  }

  /** A certificate's nonce is free; another is the next one, or 0 where that is allowed. */
  predicate NonceOk(before: nat, tx: Tx)
  {
    tx.txType.TX_CERT? || (if tx.nonce == 0 then tx.zeroNonceAllowed else tx.nonce == before + 1)
  }

  /** `VerifyTransaction` for a non-null sender in state `s`. */
  function VerifyTransaction(s: DestState, tx: Tx): (err: Errno)
    ensures err.OK? <==> tx.amount + tx.fee <= s.balance && NonceOk(s.txNonce, tx) && tx.otherChecks
    ensures err == ERR_TRANSACTION_INPUT_INVALID <==> s.balance < tx.amount + tx.fee
    ensures err == ERR_MISSING_PREV <==> tx.amount + tx.fee <= s.balance && !NonceOk(s.txNonce, tx)
  {
    if s.balance < tx.amount + tx.fee then ERR_TRANSACTION_INPUT_INVALID
    else if !tx.txType.TX_CERT? && tx.nonce == 0 && !tx.zeroNonceAllowed then ERR_MISSING_PREV
    else if !tx.txType.TX_CERT? && tx.nonce != 0 && tx.nonce != s.txNonce + 1 then ERR_MISSING_PREV
    else if !tx.otherChecks then ERR_TRANSACTION_REJECTED
    else OK
  }

  // ----- the reference: transactions applied in order to the whole ledger

  datatype Outcome = Rejected(err: Errno) | Applied(ledger: Ledger)

  function CreditTo(m: Ledger, d: Dest, amount: nat): Ledger
  {
    if amount > 0 then m[d := Look(m, d).(balance := Look(m, d).balance + amount)] else m
  }

  function DebitFrom(m: Ledger, tx: Tx): Ledger
    requires tx.amount + tx.fee <= Look(m, tx.from).balance
  {
    var s := Look(m, tx.from);
    m[tx.from := DestState(s.balance - (tx.amount + tx.fee), if tx.txType.TX_CERT? then s.txNonce else s.txNonce + 1)]
  }

  /** One transaction; `reward` says that it is among the block's leading reward transactions. */
  function Apply(m: Ledger, tx: Tx, reward: bool): Outcome
  {
    if reward != tx.txType.TX_VOTE_REWARD? then Rejected(ERR_TRANSACTION_INVALID)
    else if reward || tx.from == 0 then Applied(CreditTo(m, tx.to, tx.amount))
    else
      var err := VerifyTransaction(Look(m, tx.from), tx);
      if err.OK? then Applied(CreditTo(DebitFrom(m, tx), tx.to, tx.amount)) else Rejected(err)
  }

  /** The ledger after `txs`, of which the first `rewards` are reward transactions. */
  ghost function Run(m: Ledger, txs: seq<Tx>, rewards: nat): Outcome
  {
    if txs == [] then Applied(m) else
      match Run(m, txs[..|txs| - 1], rewards)
      case Rejected(err) => Rejected(err)
      case Applied(before) => Apply(before, txs[|txs| - 1], |txs| - 1 < rewards)
  }

  lemma {:induction false} RunRejected(m: Ledger, txs: seq<Tx>, rewards: nat, i: nat)
    requires i <= |txs| && Run(m, txs[..i], rewards).Rejected?
    ensures Run(m, txs, rewards) == Run(m, txs[..i], rewards)
    decreases |txs|
  {
    if i == |txs| {
      assert txs[..i] == txs;
    } else {
      assert txs[..|txs| - 1][..i] == txs[..i];
      RunRejected(m, txs[..|txs| - 1], rewards, i);
    }
  }

  ghost function TotalFee(txs: seq<Tx>): nat
  {
    if txs == [] then 0 else TotalFee(txs[..|txs| - 1]) + txs[|txs| - 1].fee
  }

  // ----- the overlay

  /** What the lazily loaded overlay says about an address. */
  function View(base: Ledger, overlay: Ledger, d: Dest): DestState
  {
    if d in overlay then overlay[d] else Look(base, d)
  }

  ghost predicate Refines(base: Ledger, overlay: Ledger, m: Ledger)
  {
    forall d :: View(base, overlay, d) == Look(m, d)
  }

  /** Loads `d` from storage on first use. */
  method Load(base: Ledger, overlay: Ledger, d: Dest, ghost m: Ledger) returns (r: Ledger)
    requires Refines(base, overlay, m)
    ensures d in r && r[d] == Look(m, d) && Refines(base, r, m)
  {
    r := overlay;
    if d !in r {
      r := r[d := Look(base, d)];
    }
    assert View(base, overlay, d) == Look(m, d);
    forall x ensures View(base, r, x) == Look(m, x) {
      assert View(base, overlay, x) == Look(m, x);
    }
  }

  lemma RefinesSet(base: Ledger, overlay: Ledger, m: Ledger, d: Dest, s: DestState)
    requires Refines(base, overlay, m)
    ensures Refines(base, overlay[d := s], m[d := s])
  {
    var overlay', m' := overlay[d := s], m[d := s];
    forall x ensures View(base, overlay', x) == Look(m', x) {
      assert View(base, overlay, x) == Look(m, x);
    }
  }

  /** The sender's side of a transaction that passes. */
  method Debit(base: Ledger, overlay: Ledger, tx: Tx, ghost m: Ledger) returns (err: Errno, r: Ledger)
    requires Refines(base, overlay, m)
    ensures err == VerifyTransaction(Look(m, tx.from), tx)
    ensures err.OK? ==> Refines(base, r, DebitFrom(m, tx))
  {
    r := Load(base, overlay, tx.from, m);
    var s := r[tx.from];
    err := VerifyTransaction(s, tx);
    if err.OK? {
      s := s.(balance := s.balance - (tx.amount + tx.fee));
      if !tx.txType.TX_CERT? {
        s := s.(txNonce := s.txNonce + 1);
      }
      RefinesSet(base, r, m, tx.from, s);
      r := r[tx.from := s];
    }
  }

  method Credit(base: Ledger, overlay: Ledger, d: Dest, amount: nat, ghost m: Ledger) returns (r: Ledger)
    requires Refines(base, overlay, m)
    ensures Refines(base, r, CreditTo(m, d, amount))
  {
    r := overlay;
    if amount > 0 {
      r := Load(base, r, d, m);
      RefinesSet(base, r, m, d, r[d].(balance := r[d].balance + amount));
      r := r[d := r[d].(balance := r[d].balance + amount)];
    }
  }

  method VerifyOne(base: Ledger, overlay: Ledger, tx: Tx, reward: bool, ghost m: Ledger) returns (err: Errno, r: Ledger)
    requires Refines(base, overlay, m)
    ensures err.OK? <==> Apply(m, tx, reward).Applied?
    ensures err.OK? ==> Refines(base, r, Apply(m, tx, reward).ledger)
    ensures !err.OK? ==> Apply(m, tx, reward) == Rejected(err)
  {
    err, r := OK, overlay;
    ghost var now := m;
    if reward {
      if !tx.txType.TX_VOTE_REWARD? {
        return ERR_TRANSACTION_INVALID, r;
      }
    } else {
      if tx.txType.TX_VOTE_REWARD? {
        return ERR_TRANSACTION_INVALID, r;
      }
      if tx.from != 0 {
        err, r := Debit(base, r, tx, m);
        if !err.OK? {
          return;
        }
        now := DebitFrom(m, tx);
      }
    }
    r := Credit(base, r, tx.to, tx.amount, now);
  }

  /**
   * The block loop. It accepts exactly the blocks whose transactions all apply in order and whose minted amount is
   * covered, and then its overlay shows the reference ledger.
   */
  method VerifyBlockTx(base: Ledger, txs: seq<Tx>, rewards: nat, mintAmount: nat, reward: nat)
    returns (err: Errno, overlay: Ledger)
    ensures err.OK? <==> Run(base, txs, rewards).Applied? && mintAmount <= TotalFee(txs) + reward
    ensures err.OK? ==> Refines(base, overlay, Run(base, txs, rewards).ledger)
    ensures Run(base, txs, rewards).Rejected? ==> err == Run(base, txs, rewards).err
  {
    overlay := map[];
    var totalFee, ignore, i := 0, rewards, 0;
    while i < |txs|
      invariant 0 <= i <= |txs|
      invariant ignore == if i <= rewards then rewards - i else 0
      invariant totalFee == TotalFee(txs[..i])
      invariant Run(base, txs[..i], rewards).Applied? && Refines(base, overlay, Run(base, txs[..i], rewards).ledger)
    {
      assert txs[..i + 1][..i] == txs[..i];
      var isReward := ignore > 0;
      if ignore > 0 {
        ignore := ignore - 1;
      }
      err, overlay := VerifyOne(base, overlay, txs[i], isReward, Run(base, txs[..i], rewards).ledger);
      if !err.OK? {
        RunRejected(base, txs, rewards, i + 1);
        return;
      }
      totalFee := totalFee + txs[i].fee;
      i := i + 1;
    }
    assert txs[..|txs|] == txs;
    err := if mintAmount > totalFee + reward then ERR_BLOCK_TRANSACTIONS_INVALID else OK;
  }

  // ----- conservation

  ghost function Balances(m: Ledger): map<Dest, nat>
  {
    map d | d in m :: m[d].balance
  }

  ghost function Supply(m: Ledger): nat
  {
    Total(Balances(m))
  }

  /** Amounts that appear from nowhere: vote rewards and transactions without a sender. */
  ghost function Issued(txs: seq<Tx>): nat
  {
    if txs == [] then 0 else
      var tx := txs[|txs| - 1];
      Issued(txs[..|txs| - 1]) + if tx.txType.TX_VOTE_REWARD? || tx.from == 0 then tx.amount else 0
  }

  /** Fees taken from senders. */
  ghost function Charged(txs: seq<Tx>): nat
  {
    if txs == [] then 0 else
      var tx := txs[|txs| - 1];
      Charged(txs[..|txs| - 1]) + if tx.txType.TX_VOTE_REWARD? || tx.from == 0 then 0 else tx.fee
  }

  lemma SetSupply(m: Ledger, d: Dest, s: DestState)
    ensures Supply(m[d := s]) == Supply(m) - Look(m, d).balance + s.balance
  {
    assert Balances(m[d := s]) == Balances(m)[d := s.balance];
    TotalUpdate(Balances(m), d, s.balance);
  }

  lemma CreditSupply(m: Ledger, d: Dest, amount: nat)
    ensures Supply(CreditTo(m, d, amount)) == Supply(m) + amount
  {
    SetSupply(m, d, Look(m, d).(balance := Look(m, d).balance + amount));
  }

  lemma DebitSupply(m: Ledger, tx: Tx)
    requires tx.amount + tx.fee <= Look(m, tx.from).balance
    ensures Supply(DebitFrom(m, tx)) + tx.amount + tx.fee == Supply(m)
  {
    SetSupply(m, tx.from, DebitFrom(m, tx)[tx.from]);
  }

  lemma ApplySupply(m: Ledger, tx: Tx, reward: bool)
    requires Apply(m, tx, reward).Applied?
    ensures Supply(Apply(m, tx, reward).ledger) + (if reward || tx.from == 0 then 0 else tx.fee)
         == Supply(m) + if reward || tx.from == 0 then tx.amount else 0
  {
    if reward || tx.from == 0 {
      CreditSupply(m, tx.to, tx.amount);
    } else {
      DebitSupply(m, tx);
      CreditSupply(DebitFrom(m, tx), tx.to, tx.amount);
    }
  }

  /** Transfers move money; only rewards and sender-less transactions add it and only fees remove it. */
  lemma {:induction false} SupplyConserved(m: Ledger, txs: seq<Tx>, rewards: nat)
    requires Run(m, txs, rewards).Applied?
    ensures Supply(Run(m, txs, rewards).ledger) + Charged(txs) == Supply(m) + Issued(txs)
  {
    if txs != [] {
      var n := |txs| - 1;
      SupplyConserved(m, txs[..n], rewards);
      ApplySupply(Run(m, txs[..n], rewards).ledger, txs[n], n < rewards);
    }
  }

  /** Fees that no sender paid. */
  ghost function UnpaidFees(txs: seq<Tx>): nat
  {
    if txs == [] then 0 else
      var tx := txs[|txs| - 1];
      UnpaidFees(txs[..|txs| - 1]) + if tx.txType.TX_VOTE_REWARD? || tx.from == 0 then tx.fee else 0
  }

  lemma {:induction false} FeesSplit(txs: seq<Tx>)
    ensures TotalFee(txs) == Charged(txs) + UnpaidFees(txs)
  {
    if txs != [] {
      FeesSplit(txs[..|txs| - 1]);
    }
  }

  /** An accepted block, its minted coins included, adds no more than the block reward and what it issues. */
  lemma SupplyBound(m: Ledger, txs: seq<Tx>, rewards: nat, mintAmount: nat, reward: nat)
    requires Run(m, txs, rewards).Applied? && mintAmount <= TotalFee(txs) + reward
    ensures Supply(Run(m, txs, rewards).ledger) + mintAmount <= Supply(m) + reward + Issued(txs) + UnpaidFees(txs)
  {
    SupplyConserved(m, txs, rewards);
    FeesSplit(txs);
  }

  // ----- nonces

  /** How many nonce-bearing transactions `d` sent. */
  ghost function Sent(txs: seq<Tx>, rewards: nat, d: Dest): nat
  {
    if txs == [] then 0 else
      var tx := txs[|txs| - 1];
      Sent(txs[..|txs| - 1], rewards, d) + if |txs| - 1 >= rewards && tx.from == d && !tx.txType.TX_CERT? then 1 else 0
  }

  /**
   * A sender's nonce counts its transactions, those with nonce 0 included, and each non-zero nonce is its
   * transaction's number.
   */
  lemma {:induction false} NoncesAdvance(m: Ledger, txs: seq<Tx>, rewards: nat, d: Dest)
    requires Run(m, txs, rewards).Applied? && d != 0
    ensures Look(Run(m, txs, rewards).ledger, d).txNonce == Look(m, d).txNonce + Sent(txs, rewards, d)
    ensures txs != [] ==>
              var tx, n := txs[|txs| - 1], |txs| - 1;
              n >= rewards && tx.from == d && !tx.txType.TX_CERT? && tx.nonce != 0 ==>
                tx.nonce == Look(m, d).txNonce + Sent(txs[..n], rewards, d) + 1
  {
    if txs != [] {
      NoncesAdvance(m, txs[..|txs| - 1], rewards, d);
    }
  }

  /** The transactions of a block that runs were all applied in turn. */
  lemma {:induction false} RunPrefix(m: Ledger, txs: seq<Tx>, rewards: nat, n: nat)
    requires n <= |txs| && Run(m, txs, rewards).Applied?
    ensures Run(m, txs[..n], rewards).Applied?
    decreases |txs|
  {
    if n < |txs| {
      assert txs[..|txs| - 1][..n] == txs[..n];
      RunPrefix(m, txs[..|txs| - 1], rewards, n);
    } else {
      assert txs[..n] == txs;
    }
  }

  lemma {:induction false} SentGrows(txs: seq<Tx>, rewards: nat, d: Dest, n: nat)
    requires n <= |txs|
    ensures Sent(txs[..n], rewards, d) <= Sent(txs, rewards, d)
    decreases |txs|
  {
    if n < |txs| {
      assert txs[..|txs| - 1][..n] == txs[..n];
      SentGrows(txs[..|txs| - 1], rewards, d, n);
    } else {
      assert txs[..n] == txs;
    }
  }

  ghost predicate Bears(txs: seq<Tx>, rewards: nat, i: nat, d: Dest)
  {
    rewards <= i < |txs| && txs[i].from == d && !txs[i].txType.TX_CERT?
  }

  /** A transaction's nonce is its number among the sender's, or a permitted 0. */
  lemma NonceAt(m: Ledger, txs: seq<Tx>, rewards: nat, i: nat, d: Dest)
    requires Run(m, txs, rewards).Applied? && d != 0 && Bears(txs, rewards, i, d)
    ensures || txs[i].nonce == Look(m, d).txNonce + Sent(txs[..i], rewards, d) + 1
            || (txs[i].nonce == 0 && txs[i].zeroNonceAllowed)
  {
    RunPrefix(m, txs, rewards, i + 1);
    assert txs[..i + 1][..i] == txs[..i];
    NoncesAdvance(m, txs[..i], rewards, d);
  }

  lemma SentBetween(txs: seq<Tx>, rewards: nat, d: Dest, i: nat, j: nat)
    requires i < j <= |txs| && Bears(txs, rewards, i, d)
    ensures Sent(txs[..i], rewards, d) < Sent(txs[..j], rewards, d)
  {
    assert txs[..i + 1][..i] == txs[..i] && txs[..j][..i + 1] == txs[..i + 1];
    SentGrows(txs[..j], rewards, d, i + 1);
  }

  /** Two transactions of one sender in a block share a nonce only if it is a permitted 0. */
  lemma NoReplay(m: Ledger, txs: seq<Tx>, rewards: nat, i: nat, j: nat, d: Dest)
    requires Run(m, txs, rewards).Applied? && d != 0 && i < j
    requires Bears(txs, rewards, i, d) && Bears(txs, rewards, j, d) && txs[i].nonce == txs[j].nonce
    ensures txs[i].nonce == 0 && txs[i].zeroNonceAllowed && txs[j].zeroNonceAllowed
  {
    NonceAt(m, txs, rewards, i, d);
    NonceAt(m, txs, rewards, j, d);
    SentBetween(txs, rewards, d, i, j);
  }

  // ----- every address, from the transactions alone

  /** What the transactions send to `d`. */
  ghost function Received(txs: seq<Tx>, d: Dest): nat
  {
    if txs == [] then 0 else
      Received(txs[..|txs| - 1], d) + if txs[|txs| - 1].to == d then txs[|txs| - 1].amount else 0
  }

  /** What `d` pays for a transaction; a reward has no sender, and neither has one from the null address. */
  ghost function Cost(tx: Tx, d: Dest): nat
  {
    if tx.from == d && d != 0 && !tx.txType.TX_VOTE_REWARD? then tx.amount + tx.fee else 0
  }

  /** What `d` sends, fees included. */
  ghost function Spent(txs: seq<Tx>, d: Dest): nat
  {
    if txs == [] then 0 else Spent(txs[..|txs| - 1], d) + Cost(txs[|txs| - 1], d)
  }

  lemma ApplyMoves(m: Ledger, tx: Tx, reward: bool, d: Dest)
    requires Apply(m, tx, reward).Applied?
    ensures Look(Apply(m, tx, reward).ledger, d).balance + Cost(tx, d)
         == Look(m, d).balance + if tx.to == d then tx.amount else 0
  {
  }

  /** Every balance is what it was, plus what was received, minus what was spent. */
  lemma {:induction false} BalancesMove(m: Ledger, txs: seq<Tx>, rewards: nat, d: Dest)
    requires Run(m, txs, rewards).Applied?
    ensures Look(Run(m, txs, rewards).ledger, d).balance + Spent(txs, d) == Look(m, d).balance + Received(txs, d)
  {
    if txs != [] {
      var n := |txs| - 1;
      BalancesMove(m, txs[..n], rewards, d);
      ApplyMoves(Run(m, txs[..n], rewards).ledger, txs[n], n < rewards, d);
    }
  }

  /** Transaction `i` has the right type for its place, and its sender can pay it and has reached its nonce. */
  ghost predicate Fits(m: Ledger, txs: seq<Tx>, rewards: nat, i: nat)
    requires i < |txs|
  {
    var tx, before := txs[i], txs[..i];
    && (tx.txType.TX_VOTE_REWARD? <==> i < rewards)
    && (i < rewards || tx.from == 0 ||
        (&& tx.amount + tx.fee + Spent(before, tx.from) <= Look(m, tx.from).balance + Received(before, tx.from)
         && NonceOk(Look(m, tx.from).txNonce + Sent(before, rewards, tx.from), tx) && tx.otherChecks))
  }

  lemma FitsIff(m: Ledger, txs: seq<Tx>, rewards: nat, i: nat)
    requires i < |txs| && Run(m, txs[..i], rewards).Applied?
    ensures Fits(m, txs, rewards, i) <==> Apply(Run(m, txs[..i], rewards).ledger, txs[i], i < rewards).Applied?
  {
    BalancesMove(m, txs[..i], rewards, txs[i].from);
    if txs[i].from != 0 {
      NoncesAdvance(m, txs[..i], rewards, txs[i].from);
    }
  }

  /** A block's transactions apply exactly when each of them fits what came before it, with no ledger in between. */
  lemma {:induction false} AppliesIff(m: Ledger, txs: seq<Tx>, rewards: nat)
    ensures Run(m, txs, rewards).Applied? <==> forall i :: 0 <= i < |txs| ==> Fits(m, txs, rewards, i)
  {
    if txs != [] {
      var n := |txs| - 1;
      AppliesIff(m, txs[..n], rewards);
      forall i | 0 <= i < n ensures Fits(m, txs, rewards, i) <==> Fits(m, txs[..n], rewards, i) {
        assert txs[..n][..i] == txs[..i];
      }
      if Run(m, txs[..n], rewards).Applied? {
        FitsIff(m, txs, rewards, n);
      }
    }
  }
}
