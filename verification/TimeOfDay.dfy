// settimeofday and gettimeofday: the time of day as an offset from the tick
// counter, with 32-bit arithmetic as the compiler does it.

module TimeOfDay {
  import opened Division
  import opened Words

  const US := 1_000_000

  datatype Timeval = Timeval(sec: S32, usec: S32)
  datatype Timezone = Timezone(minutesWest: S32, dstTime: S32)

  /** Microseconds per tick, and the two ways of taking the ticks' part below a
      second: settimeofday multiplies in 32 bits, gettimeofday in 64. */
  function PerTick(rate: U32): nat
    requires rate > 0
  {
    US / rate
  }

  function SetPart(n: U32, rate: U32): nat
    requires rate > 0
  {
    (n * PerTick(rate) % WRAP) % US
  }

  function GetPart(n: U32, rate: U32): nat
    requires rate > 0
  {
    n * PerTick(rate) % US
  }

  /** What settimeofday stores. */
  function Base(t: Timeval, n: U32, rate: U32): Timeval
    requires rate > 0
  {
    Timeval(Signed(t.sec - n / rate), Signed(t.usec - SetPart(n, rate)))
  }

  /** What gettimeofday makes of it, before normalising. */
  function Raw(base: Timeval, n: U32, rate: U32): Timeval
    requires rate > 0
  {
    Timeval(Signed(base.sec + n / rate), Signed(base.usec + GetPart(n, rate)))
  }

  function Micros(t: Timeval): int { t.sec * US + t.usec }

  /** The normalised time: a negative total with a negative microsecond part is
      clamped to zero, and the seconds wrap as a signed 32-bit count. */
  function Normal(t: Timeval): Timeval
  {
    if t.usec < 0 && Micros(t) < 0 then Timeval(0, 0)
    else Timeval(Signed(Micros(t) / US), Micros(t) % US)
  }

  /** What a read at tick n returns after this base was stored. */
  function Read(base: Timeval, n: U32, rate: U32): Timeval
    requires rate > 0
  {
    Normal(Raw(base, n, rate))
  }

  /** The first loop: borrow seconds until the microseconds are not negative, or
      give up at zero. */
  method Borrow(t: Timeval) returns (r: Timeval)
    ensures t.usec < 0 && Micros(t) < 0 ==> r == Timeval(0, 0)
    ensures !(t.usec < 0 && Micros(t) < 0) ==> Micros(r) == Micros(t) && r.usec >= 0
  {
    var sec: int, usec: int := t.sec, t.usec;
    while usec < 0
      invariant sec * US + usec == Micros(t)
      invariant -0x8000_0000 <= sec <= t.sec && -0x8000_0000 <= usec < 0x8000_0000
      invariant t.usec >= 0 ==> usec == t.usec
      invariant usec >= 0 && t.usec < 0 ==> sec >= 0
    {
      if sec <= 0 {
        return Timeval(0, 0);
      }
      sec, usec := sec - 1, usec + US;
    }
    r := Timeval(sec, usec);
  }

  /** The second loop: carry whole seconds out of the microseconds. */
  method Carry(t: Timeval) returns (r: Timeval)
    requires t.usec >= 0
    ensures r == Timeval(Signed(Micros(t) / US), Micros(t) % US)
  {
    r := t;
    ghost var sec: int := t.sec;
    while r.usec >= US
      invariant sec * US + r.usec == Micros(t) && r.usec >= 0
      invariant r.sec == Signed(sec)
      decreases r.usec
    {
      SignedOfSigned(sec, 1);
      r := Timeval(Signed(r.sec + 1), r.usec - US);
      sec := sec + 1;
    }
    Quotient(Micros(t), sec, r.usec, US);
  }

  class SystemClock {
    var nticks: U32
    var tickRate: U32
    var resetTime: Timeval
    var timezone: Timezone

    constructor ()
      ensures nticks == 0 && tickRate == 0
      ensures resetTime == Timeval(0, 0) && timezone == Timezone(0, 0)
    {
      nticks, tickRate := 0, 0;
      resetTime, timezone := Timeval(0, 0), Timezone(0, 0);
    }

    /** settimeofday: false if there is no system clock. */
    method SetTimeOfDay(t: Timeval, tz: Timezone) returns (ok: bool)
      modifies this`resetTime, this`timezone
      ensures ok <==> tickRate != 0
      ensures ok ==> resetTime == Base(t, nticks, tickRate) && timezone == tz
      ensures !ok ==> resetTime == old(resetTime) && timezone == old(timezone)
    {
      if tickRate != 0 {
        resetTime := Timeval(Signed(t.sec - nticks / tickRate),
                             Signed(t.usec - (nticks * (US / tickRate) % WRAP) % US));
        timezone := tz;
        return true;
      }
      ok := false;
    }

    /** gettimeofday: nothing if there is no system clock. */
    method GetTimeOfDay(wantZone: bool) returns (r: Option<Timeval>, zone: Option<Timezone>)
      ensures r == if tickRate == 0 then None else Some(Read(resetTime, nticks, tickRate))
      ensures zone == if tickRate != 0 && wantZone then Some(timezone) else None
    {
      r, zone := None, None;
      if tickRate != 0 {
        var raw := Timeval(Signed(resetTime.sec + nticks / tickRate),
                           Signed(resetTime.usec + nticks * (US / tickRate) % US));
        var borrowed := Borrow(raw);
        var t := Carry(borrowed);
        r := Some(t);
        if wantZone {
          zone := Some(timezone);
        }
      }
    }
  }

  /** Before any setting a read gives the time since reset: whole seconds by the tick
      rate, as a signed count, and the microseconds of the ticks. */
  lemma ReadBeforeSetting(n: U32, rate: U32)
    requires rate > 0
    ensures Read(Timeval(0, 0), n, rate)
         == Timeval(Signed(n / rate), n * (1_000_000 / rate) % 1_000_000)
  {
    var sec, usec := Signed(n / rate), n * (1_000_000 / rate) % 1_000_000;
    Parts(n * (1_000_000 / rate), US);
    assert Signed(usec) == usec;
    assert Raw(Timeval(0, 0), n, rate) == Timeval(sec, usec);
    Quotient(sec * US + usec, sec, usec, US);
    assert Signed(sec) == sec;
  }

  // ---- When a time that was set is read back exactly ----

  /** The 32-bit product loses a multiple of 2^32 microseconds; that is a whole
      number of seconds only for every 15625th multiple. */
  predicate Exact(n: U32, rate: U32)
    requires rate > 0
  {
    (n * PerTick(rate) / WRAP) % 15625 == 0
  }

  lemma WholeSeconds(v: nat)
    ensures (v % WRAP) % US == v % US <==> (v / WRAP) % 15625 == 0
  {
    var q, r := v / WRAP, v % WRAP;
    var a, b := v / US, r / US;
    if r % US == v % US {
      // 2^26 is invertible modulo 15625.
      assert q * 67108864 == (a - b) * 15625;
      assert q == 15625 * (12659 * (a - b) - 54369991 * q);
    } else if q % 15625 == 0 {
      var k := q / 15625;
      assert v == (k * 67108864 + b) * US + r % US;
      Quotient(v, k * 67108864 + b, r % US, US);
    }
  }

  lemma PartsAgree(n: U32, rate: U32)
    requires rate > 0
    ensures SetPart(n, rate) == GetPart(n, rate) <==> Exact(n, rate)
  {
    WholeSeconds(n * PerTick(rate));
  }

  /** What normalising gives when the stored base is d microseconds short, for any
      time, also a negative one. */
  lemma NormalIs(raw: Timeval, total: int, d: int)
    requires -US < d < US && -0x7fff_ffff * US <= total < 0x7fff_ffff * US
    requires Micros(raw) == total - d
    ensures Normal(raw) == Timeval(total / US, total % US)
       <==> if d == 0 then total >= 0 || raw.usec >= 0 else total == 0 && d > 0 && raw.usec < 0
  {
    Parts(total, US);
    assert Signed(total / US) == total / US;
    if d != 0 {
      assert (total - d) % US != total % US;
    }
  }

  /** The same for the value itself, which may also be a negative time. */
  lemma NormalIsSame(t: Timeval, d: int)
    requires 0 <= t.usec < US && -US < d < US
    ensures Normal(Timeval(t.sec, t.usec - d)) == t <==> d == 0 || (t == Timeval(0, 0) && d > 0)
  {
    Quotient(Micros(t), t.sec, t.usec, US);
    assert Signed(t.sec) == t.sec;
    if d != 0 {
      assert (Micros(t) - d) % US != t.usec;
    }
  }

  lemma Shifted(x: int, a: int, b: int)
    requires -0x8000_0000 <= x - a + b < 0x8000_0000
    ensures Signed(Signed(x - a) + b) == x - a + b
  {
    SignedOfSigned(x - a, b);
  }

  lemma RawIs(t: Timeval, n0: U32, n1: U32, rate: U32, q0: nat, q1: nat)
    requires rate > 0 && 0 <= t.usec < US
    requires q0 == n0 / rate && q1 == n1 / rate
    requires -0x8000_0000 <= t.sec - q0 + q1 < 0x8000_0000
    ensures Raw(Base(t, n0, rate), n1, rate)
         == Timeval(t.sec - q0 + q1, t.usec - SetPart(n0, rate) + GetPart(n1, rate))
  {
    Shifted(t.sec, q0, q1);
    Shifted(t.usec, SetPart(n0, rate), GetPart(n1, rate));
  }

  /** A read at the very tick of the setting returns what was set, whatever the
      tick rate, exactly when the product lost whole seconds only; midnight of the
      epoch is also saved by the clamp if the base came out too small. */
  lemma ReadBack(t: Timeval, n: U32, rate: U32)
    requires rate > 0 && 0 <= t.usec < US
    ensures Read(Base(t, n, rate), n, rate) == t
       <==> Exact(n, rate) || (t == Timeval(0, 0) && SetPart(n, rate) > GetPart(n, rate))
  {
    PartsAgree(n, rate);
    Parts(n, rate);
    RawIs(t, n, n, rate, n / rate, n / rate);
    NormalIsSame(t, SetPart(n, rate) - GetPart(n, rate));
  }

  /** Whole seconds and the rest, for a rate that divides a second exactly. */
  lemma TicksSplit(n: U32, rate: U32, us: nat)
    requires rate > 0 && rate * us == US
    ensures PerTick(rate) == us && n * us == (n / rate) * US + GetPart(n, rate)
  {
    assert us * rate == US;
    Quotient(US, us, 0, rate);
    var Q, R := n / rate, n % rate;
    Parts(n, rate);
    assert us > 0;
    Expand(Q, rate, R, us);
    TwoDigits(R, 0, us, rate);
    assert us * rate == US;
    Quotient(n * us, Q, R * us, US);
  }

  /** The microseconds that gettimeofday makes of n ticks. */
  function Elapsed(n: U32, rate: U32): nat
    requires rate > 0
  {
    Parts(n, rate);
    (n / rate) * US + GetPart(n, rate)
  }

  lemma SecondsFit(q: int, u: int)
    requires -US < u < 2 * US && -0x7fff_ffff * US <= q * US + u < 0x7fff_ffff * US
    ensures -0x8000_0000 <= q < 0x8000_0000
  {
  }

  /** Set at tick n0, read at tick n1, whatever the rate, the time and the order of
      the ticks: the answer is the time that was set plus the ticks elapsed exactly
      when the setting was exact and no negative time is clamped (or when a clamp at
      zero makes up for an inexact setting). The answer must lie inside the first
      and the last second that a signed 32-bit count holds. */
  lemma SetThenGet(t: Timeval, n0: U32, n1: U32, rate: U32)
    requires rate > 0 && 0 <= t.usec < US
    ensures var total := Micros(t) + Elapsed(n1, rate) - Elapsed(n0, rate);
      var u := t.usec - SetPart(n0, rate) + GetPart(n1, rate);
      -0x7fff_ffff * US <= total < 0x7fff_ffff * US ==>
        (Read(Base(t, n0, rate), n1, rate) == Timeval(total / US, total % US)
         <==> if Exact(n0, rate) then total >= 0 || u >= 0
              else total == 0 && SetPart(n0, rate) > GetPart(n0, rate) && u < 0)
  {
    var total := Micros(t) + Elapsed(n1, rate) - Elapsed(n0, rate);
    var q0, q1 := n0 / rate, n1 / rate;
    Parts(n0, rate);
    Parts(n1, rate);
    if -0x7fff_ffff * US <= total < 0x7fff_ffff * US {
      SecondsFit(t.sec - q0 + q1, t.usec - GetPart(n0, rate) + GetPart(n1, rate));
      RawIs(t, n0, n1, rate, q0, q1);
      PartsAgree(n0, rate);
      NormalIs(Raw(Base(t, n0, rate), n1, rate), total, SetPart(n0, rate) - GetPart(n0, rate));
    }
  }

  /** Any tick below the first overflow of the product is an exact one. */
  lemma EarlyIsExact(n: U32, rate: U32)
    requires rate > 0 && n * PerTick(rate) < WRAP
    ensures Exact(n, rate)
  {
    Quotient(n * PerTick(rate), 0, n * PerTick(rate), WRAP);
  }

  /** What a caller can rely on: with a whole number of microseconds a tick, a time
      set before the product overflows is read back plus the ticks since. */
  lemma EarlySettingIsKept(t: Timeval, n0: U32, n1: U32, rate: U32, us: nat, total: nat)
    requires rate > 0 && rate * us == US && n0 <= n1 && n0 * us < WRAP
    requires t.sec >= 0 && 0 <= t.usec < US
    requires total == Micros(t) + (n1 - n0) * us && total < 0x7fff_ffff * US
    ensures Read(Base(t, n0, rate), n1, rate) == Timeval(total / US, total % US)
  {
    TicksSplit(n0, rate, us);
    TicksSplit(n1, rate, us);
    assert (n1 - n0) * us == n1 * us - n0 * us;
    EarlyIsExact(n0, rate);
    SetThenGet(t, n0, n1, rate);
  }

  lemma OneSecond(rate: U32)
    requires rate > 0 && US % rate != 0
    ensures PerTick(rate) > 0 ==> Elapsed(rate, rate) == US + rate * PerTick(rate) > US
    ensures PerTick(rate) == 0 ==> Elapsed(rate - 1, rate) == 0
  {
    var us := PerTick(rate);
    Parts(US, rate);
    Quotient(rate, 1, 0, rate);
    Quotient(rate - 1, 0, rate - 1, rate);
    assert us * rate < US;
    if us > 0 {
      MulMono(1, us, rate);
      Quotient(rate * us, 0, rate * us, US);
    }
  }

  /** The ticks keep the time, at every count of them, if and only if a second is a
      whole number of microseconds a tick: else the part below a second runs on
      while the seconds are counted in ticks. */
  lemma TicksKeepTime(rate: U32)
    requires rate > 0
    ensures (forall n: U32 :: Elapsed(n, rate) == n * US / rate) <==> US % rate == 0
  {
    Parts(US, rate);
    if US % rate == 0 {
      var us := US / rate;
      forall n: U32
        ensures Elapsed(n, rate) == n * US / rate
      {
        TicksSplit(n, rate, us);
        assert n * US == (n * us) * rate;
        Quotient(n * US, n * us, 0, rate);
      }
    } else if PerTick(rate) > 0 {
      OneSecond(rate);
      Quotient(rate * US, US, 0, rate);
      assert Elapsed(rate, rate) != rate * US / rate;
    } else {
      OneSecond(rate);
      Below((rate - 1) * US, rate, 1);
      assert Elapsed(rate - 1, rate) != (rate - 1) * US / rate;
    }
  }

  /** At a thousand ticks a second the first inexact setting comes 71 minutes after
      reset: what is read back at once is not what was set. */
  lemma LateSettingIsLost()
    ensures !Exact(4_294_968, 1000)
    ensures Read(Base(Timeval(1000, 0), 4_294_968, 1000), 4_294_968, 1000) != Timeval(1000, 0)
  {
    assert PerTick(1000) == 1000;
    assert (4_294_968 * 1000) / WRAP == 1;
    ReadBack(Timeval(1000, 0), 4_294_968, 1000);
  }
}
