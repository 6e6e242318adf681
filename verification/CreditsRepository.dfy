/**
 The credits repository: its tables as mutable state, and its transactions statement by statement.

 Each transaction is handed the snapshot its SELECTs read, which may be any earlier state of the
 tables. Its writes go to `tx`, the transaction's own view of the present tables, and reach the
 fields only when it commits; returning without committing is the rollback.
 */
module CreditsRepository {
  import opened Common
  import opened Ledger

  /** `Ok(None)` is every refusal, whether for want of funds or by a lost version check. */
  datatype DbResult<+T> = Ok(value: Option<T>) | Err

  function BalanceOf(outcome: Outcome): DbResult<int> {
    match outcome
    case Done(Balance(b)) => Ok(Some(b))
    case Failed => Err
    case _ => Ok(None)
  }

  function HoldOf(outcome: Outcome): DbResult<(HoldId, int)> {
    match outcome
    case Done(Placed(h, version)) => Ok(Some((h, version)))
    case Failed => Err
    case _ => Ok(None)
  }

  class CreditsRepo {
    var credits: map<AccountId, CreditRow>
    var holds: map<HoldId, Hold>
    var log: seq<TxRow>

    function Contents(): Database
      reads this
    {
      Database(credits, holds, log)
    }

    constructor ()
      ensures Contents() == EMPTY
    {
      credits, holds, log := map[], map[], [];
    }

    method Store(tx: Database)
      modifies this
      ensures Contents() == tx
    {
      credits, holds, log := tx.credits, tx.holds, tx.log;
    }

    /** INSERT OR IGNORE. */
    method Init(account: AccountId)
      modifies this
      ensures Contents() == RunTx(Op.Init(account), old(Contents()), old(Contents())).db
    {
      if account !in credits {
        credits := credits[account := CreditRow(0, 0, 0)];
      }
    }

    method Adjust(snapshot: Database, account: AccountId, delta: int,
                  reason: Option<string>, operator: Option<string>)
      returns (r: DbResult<int>)
      modifies this
      ensures var t := RunTx(Op.Adjust(account, delta, reason, operator), snapshot, old(Contents()));
              Contents() == t.db && r == BalanceOf(t.outcome)
    {
      if account !in snapshot.credits {
        return Ok(None);
      }
      var balance, version := snapshot.credits[account].balance, snapshot.credits[account].version;
      var newBalance := WrapI64(balance + delta);
      if newBalance < 0 {
        return Ok(None);
      }
      var tx := Contents();
      if !VersionHolds(tx, account, version) {
        return Ok(None);
      }
      tx := tx.(credits := tx.credits[account := tx.credits[account].(balance := newBalance, version := version + 1)]);
      tx := tx.(log := tx.log + [TxRow(account, delta, newBalance, reason, operator)]);
      Store(tx);
      return Ok(Some(newBalance));
    }

    method PlaceHold(snapshot: Database, account: AccountId, amount: int, holdId: HoldId)
      returns (r: DbResult<(HoldId, int)>)
      modifies this
      ensures var t := RunTx(Op.PlaceHold(account, amount, holdId), snapshot, old(Contents()));
              Contents() == t.db && r == HoldOf(t.outcome)
    {
      if account !in snapshot.credits {
        return Ok(None);
      }
      var balance, version := snapshot.credits[account].balance, snapshot.credits[account].version;
      if balance < amount {
        return Ok(None);
      }
      var tx := Contents();
      if !VersionHolds(tx, account, version) {
        return Ok(None);
      }
      var row := tx.credits[account];
      tx := tx.(credits := tx.credits[account := CreditRow(row.balance - amount, row.held + amount, version + 1)]);
      if holdId in tx.holds {
        return Err;
      }
      tx := tx.(holds := tx.holds[holdId := Hold(account, amount, Held)]);
      Store(tx);
      return Ok(Some((holdId, version + 1)));
    }

    method SettleHold(snapshot: Database, holdId: HoldId, actualCost: int) returns (r: DbResult<int>)
      modifies this
      ensures var t := RunTx(Op.SettleHold(holdId, actualCost), snapshot, old(Contents()));
              Contents() == t.db && r == BalanceOf(t.outcome)
    {
      if holdId !in snapshot.holds || snapshot.holds[holdId].status != Held {
        return Ok(None);
      }
      var account, heldAmount := snapshot.holds[holdId].account, snapshot.holds[holdId].amount;
      var refund := WrapI64(heldAmount - actualCost);
      if account !in snapshot.credits {
        return Err;
      }
      var row := snapshot.credits[account];
      var newHeld := WrapI64(row.held - heldAmount);
      var newBalance := WrapI64(row.balance + refund);
      if newBalance < 0 || newHeld < 0 {
        return Ok(None);
      }
      var tx := Contents();
      if !VersionHolds(tx, account, row.version) {
        return Ok(None);
      }
      tx := tx.(credits := tx.credits[account := CreditRow(newBalance, newHeld, row.version + 1)]);
      tx := tx.(holds := WithStatus(tx.holds, holdId, Settled));
      tx := tx.(log := tx.log + [TxRow(account, WrapI64(-actualCost), newBalance, Some("usage"), Some("system"))]);
      Store(tx);
      return Ok(Some(newBalance));
    }

    method ReleaseHold(snapshot: Database, holdId: HoldId) returns (r: DbResult<int>)
      modifies this
      ensures var t := RunTx(Op.ReleaseHold(holdId), snapshot, old(Contents()));
              Contents() == t.db && r == BalanceOf(t.outcome)
    {
      if holdId !in snapshot.holds || snapshot.holds[holdId].status != Held {
        return Ok(None);
      }
      var account, amount := snapshot.holds[holdId].account, snapshot.holds[holdId].amount;
      if account !in snapshot.credits {
        return Err;
      }
      var row := snapshot.credits[account];
      var tx := Contents();
      if !VersionHolds(tx, account, row.version) {
        return Ok(None);
      }
      var newBalance := WrapI64(row.balance + amount);
      tx := tx.(credits := tx.credits[account := CreditRow(newBalance, WrapI64(row.held - amount), row.version + 1)]);
      tx := tx.(holds := WithStatus(tx.holds, holdId, Released));
      Store(tx);
      return Ok(Some(newBalance));
    }
  }
}
