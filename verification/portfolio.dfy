/** The portfolio object; each method is one critical section of its lock. */
module Portfolios {
  import opened Prelude
  import opened ReservationSpec

  class Portfolio {
    var positions: map<Symbol, Position>
    var risk: Risk
    var settings: Settings
    var held: Held

    ghost function State(): Ledger
      reads this
    {
      Ledger(positions, risk, settings, held)
    }

    constructor (saved: map<Symbol, Position>, risk: Risk, settings: Settings)
      ensures State() == Ledger(saved, risk, settings, Held(0, 0.0, {}))
    {
      positions, this.risk, this.settings := saved, risk, settings;
      held := Held(0, 0.0, {});
    }

    method ResetDaily()
      modifies this`risk
      ensures risk == ReservationSpec.ResetDaily(old(risk))
      ensures risk.trades == 0 && risk.pnl == 0.0 && risk.day == old(risk.day)
    {
      risk := risk.(pnl := 0.0);
      risk := risk.(trades := 0);
      if risk.halt == DAILY_LOSS_LIMIT {
        risk := risk.(halt := "");
      }
    }

    method RollDailyIfNeeded(today: Option<int>)
      modifies this`risk
      ensures risk == Roll(old(risk), today)
      ensures !NewDay(old(risk), today) ==> risk == old(risk)
      ensures NewDay(old(risk), today) ==> risk.day == today && risk.trades == 0 && risk.pnl == 0.0
    {
      if today == None {
        return;
      }
      if risk.day != today {
        ResetDaily();
        risk := risk.(day := today);
      }
    }

    method CanOpen(today: Option<int>) returns (ok: bool)
      modifies this`risk
      ensures State() == Gated(old(State()), today)
      ensures ok <==> MayOpen(old(State()), today)
    {
      OpensExactlyWhen(State(), today);
      RollDailyIfNeeded(today);
      if !risk.autotrade || risk.halt != "" || risk.protection != "" || risk.trades >= MAX_TRADES_PER_DAY {
        return false;
      }
      if |positions| + held.pending >= settings.maxPositions {
        return false;
      }
      if risk.pnl <= -MAX_DAILY_LOSS {
        risk := risk.(halt := DAILY_LOSS_LIMIT);
        return false;
      }
      return true;
    }

    /** `free` is the balance the broker reports while the lock is held. */
    method TryReserve(symbol: Symbol, free: real, today: Option<int>) returns (ok: bool, need: real)
      modifies this`risk, this`held
      ensures State() == Reserve(old(State()), symbol, free, today)
      ensures ok == Reserves(old(State()), symbol, free, today) && need == old(settings.size)
      ensures ok <==>
              && MayOpen(old(State()), today) && symbol !in old(positions) && symbol !in old(held.symbols)
              && old(held.usdt) + need <= free
      ensures ok ==> held == Held(old(held.pending) + 1, old(held.usdt) + need, old(held.symbols) + {symbol})
      ensures !ok ==> held == old(held)
    {
      ReservesExactlyWhen(State(), symbol, free, today);
      OpensExactlyWhen(State(), today);
      need := settings.size;
      ok := CanOpen(today);
      if !ok {
        return;
      }
      if symbol in positions || symbol in held.symbols {
        return false, need;
      }
      if free - held.usdt < need {
        return false, need;
      }
      held := held.(symbols := held.symbols + {symbol});
      held := held.(pending := held.pending + 1);
      held := held.(usdt := held.usdt + need);
      return true, need;
    }

    method ReleaseReservation(symbol: Symbol, need: real)
      modifies this`held
      ensures State() == Release(old(State()), symbol, need)
      ensures symbol !in held.symbols && held.symbols == old(held.symbols) - {symbol}
      ensures old(held.pending) >= 1 ==> held.pending == old(held.pending) - 1
      ensures old(held.pending) == 0 ==> held.pending == 0
      ensures held.usdt == if need <= old(held.usdt) then old(held.usdt) - need else 0.0
    {
      held := held.(symbols := held.symbols - {symbol});
      held := held.(pending := Max(0, held.pending - 1));
      held := held.(usdt := MaxR(0.0, held.usdt - need));
    }

    method Register(symbol: Symbol, p: Position)
      modifies this`positions, this`risk
      ensures positions == old(positions)[symbol := p] && risk == old(risk).(trades := old(risk).trades + 1)
    {
      positions := positions[symbol := p];
      risk := risk.(trades := risk.trades + 1);
    }

    method CommitReservation(symbol: Symbol, need: real, p: Position)
      modifies this`positions, this`risk, this`held
      ensures State() == Commit(old(State()), symbol, need, p)
      ensures positions == old(positions)[symbol := p] && risk == old(risk).(trades := old(risk).trades + 1)
      ensures symbol !in held.symbols
    {
      ReleaseReservation(symbol, need);
      Register(symbol, p);
    }

    method Close(symbol: Symbol, exit: real) returns (pnl: real)
      modifies this`positions, this`risk
      ensures State() == ReservationSpec.Close(old(State()), symbol, exit)
      ensures pnl == if symbol in old(positions) then Pnl(old(positions)[symbol], exit) else 0.0
      ensures positions == old(positions) - {symbol} && risk == old(risk).(pnl := old(risk).pnl + pnl)
      ensures symbol in old(positions) && old(positions)[symbol].entry > 0.0 && old(positions)[symbol].filled > 0.0 ==>
                old(positions)[symbol].entry * (1.0 + pnl + 0.002) == exit
      ensures symbol !in old(positions) || old(positions)[symbol].filled <= 0.0 || old(positions)[symbol].entry == 0.0
              ==> pnl == 0.0
    {
      if symbol in positions && positions[symbol].entry > 0.0 && positions[symbol].filled > 0.0 {
        CloseBooksTheNetReturn(State(), symbol, exit);
      }
      if symbol !in positions {
        return 0.0;
      }
      var p := positions[symbol];
      positions := positions - {symbol};
      pnl := Pnl(p, exit);
      risk := risk.(pnl := risk.pnl + pnl);
    }

    method Halt(reason: string)
      modifies this`risk
      ensures risk == old(risk).(halt := reason, autotrade := false)
    {
      risk := risk.(halt := reason);
      risk := risk.(autotrade := false);
    }

    method SetAutotrade(on: bool)
      modifies this`risk
      ensures risk == ReservationSpec.SetAutotrade(old(risk), on)
      ensures risk == old(risk).(autotrade := on, halt := risk.halt) && risk.halt == if on then "" else old(risk.halt)
    {
      risk := risk.(autotrade := on);
      if on {
        risk := risk.(halt := "");
      }
    }

    method SetSize(usdt: real)
      modifies this`settings
      ensures settings == ReservationSpec.SetSize(old(settings), usdt)
      ensures settings == old(settings).(size := if 0.0 < usdt <= 500.0 then usdt else old(settings.size))
    {
      if usdt <= 0.0 || usdt > MAX_TRADE_SIZE {
        return;
      }
      settings := settings.(size := usdt);
    }

    method SetMax(n: int)
      modifies this`settings
      ensures settings == ReservationSpec.SetMax(old(settings), n)
      ensures settings == old(settings).(maxPositions := if 1 <= n <= 5 then n else old(settings.maxPositions))
    {
      if n < 1 || n > POSITIONS_CEILING {
        return;
      }
      settings := settings.(maxPositions := n);
    }
  }
}
