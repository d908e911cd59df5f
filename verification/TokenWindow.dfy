/** `InputTokenWindow` of benchmarks/requests.py: a sliding allowance of input tokens whose entries are shared mutable
    objects, held both by the window's list and by the caller that later settles them. */
module TokenWindow {
  import opened Common

  class Entry {
    const at: real
    var tokens: real

    constructor (at: real, tokens: real)
      ensures this.at == at && this.tokens == tokens
    {
      this.at := at;
      this.tokens := tokens;
    }
  }

  // ---------------------------------------------------------------- lists of entries

  ghost predicate Chronological(es: seq<Entry>) { forall i, j :: 0 <= i < j < |es| ==> es[i].at <= es[j].at }

  function Amounts(es: seq<Entry>): (s: seq<real>)
    reads es
    ensures |s| == |es| && forall i :: 0 <= i < |es| ==> s[i] == es[i].tokens
  {
    if es == [] then [] else [es[0].tokens] + Amounts(es[1..])
  }

  /** The list comprehension of `acquire`: entries later than `cut`. */
  function Keep(es: seq<Entry>, cut: real): seq<Entry> {
    if es == [] then [] else (if es[0].at > cut then [es[0]] else []) + Keep(es[1..], cut)
  }

  /** How many leading entries a chronological list drops. */
  function Expired(es: seq<Entry>, cut: real): nat {
    if es == [] || es[0].at > cut then 0 else 1 + Expired(es[1..], cut)
  }

  lemma {:induction false} KeepAll(es: seq<Entry>, cut: real)
    requires forall i :: 0 <= i < |es| ==> es[i].at > cut
    ensures Keep(es, cut) == es
  {
    if es != [] {
      KeepAll(es[1..], cut);
      assert es == [es[0]] + es[1..];
    }
  }

  /** In a chronological list the comprehension drops exactly a prefix. */
  lemma {:induction false} KeepIsSuffix(es: seq<Entry>, cut: real)
    requires Chronological(es)
    ensures var k := Expired(es, cut);
            && k <= |es| && Keep(es, cut) == es[k..]
            && (forall i :: 0 <= i < k ==> es[i].at <= cut)
            && (forall i :: k <= i < |es| ==> es[i].at > cut)
  {
    if es != [] {
      if es[0].at > cut {
        forall i | 0 <= i < |es| ensures es[i].at > cut { assert i > 0 ==> es[0].at <= es[i].at; }
        KeepAll(es, cut);
      } else {
        KeepIsSuffix(es[1..], cut);
        var k := Expired(es[1..], cut);
        assert es[1..][k..] == es[k + 1..];
        assert [] + Keep(es[1..], cut) == Keep(es[1..], cut);
        forall i | 0 <= i < k + 1 ensures es[i].at <= cut { assert i > 0 ==> es[i] == es[1..][i - 1]; }
        forall i | k + 1 <= i < |es| ensures es[i].at > cut { assert es[i] == es[1..][i - 1]; }
      }
    }
  }

  /** The listed entries are the tail of everything granted, in order; all the rest has expired by `clock`. */
  ghost predicate Tracks(granted: seq<Entry>, entries: seq<Entry>, clock: real, window: real) {
    && Distinct(granted) && Chronological(granted)
    && (forall i :: 0 <= i < |granted| ==> granted[i].at <= clock)
    && |entries| <= |granted| && entries == granted[|granted| - |entries|..]
    && (forall i :: 0 <= i < |granted| - |entries| ==> granted[i].at <= clock - window)
  }

  lemma NothingGranted(now: real, window: real)
    ensures Tracks([], [], now, window)
  {
  }

  lemma TailFacts(granted: seq<Entry>, entries: seq<Entry>, clock: real, window: real)
    requires Tracks(granted, entries, clock, window)
    ensures Chronological(entries) && Distinct(entries) && forall e :: e in entries ==> e in granted
  {
  }

  lemma ForgetKeepsTrack(granted: seq<Entry>, entries: seq<Entry>, clock: real, now: real, window: real)
    requires Tracks(granted, entries, clock, window) && clock <= now
    ensures var k := Expired(entries, now - window);
            k <= |entries| && Keep(entries, now - window) == entries[k..]
    ensures Tracks(granted, Keep(entries, now - window), now, window)
    ensures forall e :: e in Keep(entries, now - window) ==> e.at > now - window
  {
    TailFacts(granted, entries, clock, window);
    KeepIsSuffix(entries, now - window);
    var k, cut := Expired(entries, now - window), |granted| - |entries|;
    assert entries[k..] == granted[cut + k..];
    forall i | 0 <= i < cut + k ensures granted[i].at <= now - window {
      if i >= cut { assert granted[i] == entries[i - cut]; }
    }
  }

  /** Everything granted within the last window is a tail of the listed entries. */
  lemma RecentAreListed(granted: seq<Entry>, entries: seq<Entry>, clock: real, t: real, window: real) returns (k: nat)
    requires Tracks(granted, entries, clock, window) && clock <= t
    ensures k <= |entries| && Keep(granted, t - window) == entries[k..]
  {
    KeepIsSuffix(granted, t - window);
    hide Keep, Expired, Distinct, Chronological;
    var j, cut := Expired(granted, t - window), |granted| - |entries|;
    assert j >= |granted| || granted[j].at > t - window;
    k := j - cut;
    assert granted[j..] == entries[k..];
  }

  lemma GrantKeepsTrack(granted: seq<Entry>, entries: seq<Entry>, now: real, window: real, e: Entry)
    requires Tracks(granted, entries, now, window) && e !in granted && e.at == now
    ensures Tracks(granted + [e], entries + [e], now, window)
  {
  }

  /** A pass of another caller: how long after the one before, and how much it asks for. */
  datatype Rival = Rival(delay: real, tokens: nat)

  class InputTokenWindow {
    const perMinute: int
    const windowS: real
    var entries: seq<Entry>
    ghost var granted: seq<Entry>  // every entry handed out so far, in order
    ghost var clock: real          // the latest clock reading

    ghost predicate Valid()
      reads this, entries
    {
      perMinute > 0 && Tracks(granted, entries, clock, windowS) && Nonneg(Amounts(entries))
    }

    /** At most the allowance, or one single request. */
    ghost predicate Fits(es: seq<Entry>)
      reads es
    {
      Sum(Amounts(es)) <= perMinute as real || |es| <= 1
    }

    constructor (perMinute: int, windowS: real, now: real)
      requires perMinute > 0
      ensures Valid() && entries == [] == granted && clock == now
      ensures this.perMinute == perMinute && this.windowS == windowS && Fits(entries)
    {
      hide Tracks, Sum;
      this.perMinute, this.windowS := perMinute, windowS;
      entries, granted, clock := [], [], now;
      new;
      NothingGranted(now, windowS);
    }

    lemma KeptFits(es: seq<Entry>, k: nat)
      requires k <= |es| && Nonneg(Amounts(es))
      ensures Nonneg(Amounts(es[k..])) && (Fits(es) ==> Fits(es[k..]))
    {
      hide Amounts, Sum;
      SumSuffix(Amounts(es), k);
      assert Amounts(es[k..]) == Amounts(es)[k..];
    }

    /** Drop what is no longer inside the window. */
    method Forget(now: real)
      requires Valid() && clock <= now
      modifies this
      ensures Valid() && clock == now && granted == old(granted)
      ensures entries == old(Keep(entries, now - windowS))
      ensures Amounts(entries) == old(Amounts(Keep(entries, now - windowS)))
      ensures forall e :: e in entries ==> e.at > now - windowS
      ensures old(Fits(entries)) ==> Fits(entries)
    {
      hide Tracks, Keep, Expired, Amounts, Nonneg, Sum;
      ForgetKeepsTrack(granted, entries, clock, now, windowS);
      KeptFits(entries, Expired(entries, now - windowS));
      entries := Keep(entries, now - windowS);
      clock := now;
    }

    method Grant(now: real, tokens: nat) returns (entry: Entry)
      requires Valid() && now == clock
      modifies this
      ensures Valid() && clock == old(clock)
      ensures fresh(entry) && entry.at == now && entry.tokens == tokens as real
      ensures entries == old(entries) + [entry] && granted == old(granted) + [entry]
      ensures Sum(Amounts(entries)) == old(Sum(Amounts(entries))) + tokens as real
    {
      hide Tracks, Sum;
      ghost var held := Amounts(entries);
      entry := new Entry(now, tokens as real);
      GrantKeepsTrack(granted, entries, clock, windowS, entry);
      granted := granted + [entry];
      entries := entries + [entry];
      assert Amounts(entries) == held + [tokens as real];
      SumAppend(held, tokens as real);
    }

    /** One pass of the `acquire` loop under the lock: forget what has expired, then grant or say how long to wait. */
    method TryAcquire(now: real, tokens: nat) returns (entry: Entry?, wait: real)
      requires Valid() && clock <= now
      modifies this
      ensures Valid() && clock == now
      ensures entry != null <==>
                (|| old(Keep(entries, now - windowS)) == []
                 || old(Sum(Amounts(Keep(entries, now - windowS)))) + tokens as real <= perMinute as real)
      ensures entry != null ==>
                && fresh(entry) && entry.at == now && entry.tokens == tokens as real
                && entries == old(Keep(entries, now - windowS)) + [entry] && granted == old(granted) + [entry]
      ensures entry == null ==>
                && entries == old(Keep(entries, now - windowS)) && entries != [] && granted == old(granted)
                && wait == entries[0].at + windowS - now && wait > 0.0
      ensures old(Fits(entries)) ==> Fits(entries)
    {
      hide Tracks, Keep, Amounts, Nonneg;
      entry, wait := null, 0.0;
      KeptAreOld(entries, now - windowS);
      Forget(now);
      if entries == [] || Sum(Amounts(entries)) + tokens as real <= perMinute as real {
        entry := Grant(now, tokens);
      } else {
        wait := entries[0].at + windowS - now;
      }
    }

    /** `settle`: replaces an estimate by the reported count, through the caller's own reference to the entry. The live
        sum moves only when the entry is still listed; the allowance survives whenever the count does not grow. */
    method Settle(entry: Entry, tokens: nat)
      requires Valid()
      modifies entry
      ensures entry.tokens == tokens as real && Valid()
      ensures entries == old(entries) && granted == old(granted) && clock == old(clock)
      ensures entry !in entries ==> Amounts(entries) == old(Amounts(entries))
      ensures entry in entries ==>
                Sum(Amounts(entries)) == old(Sum(Amounts(entries))) - old(entry.tokens) + tokens as real
      ensures old(Fits(entries)) && (entry !in entries || tokens as real <= old(entry.tokens)) ==> Fits(entries)
      ensures entry in entries ==>
                (Fits(entries) <==> |entries| <= 1 ||
                                    old(Sum(Amounts(entries))) - old(entry.tokens) + tokens as real <= perMinute as real)
    {
      hide Tracks, Sum;
      ghost var held := Amounts(entries);
      entry.tokens := tokens as real;
      if entry in entries {
        ghost var i :| 0 <= i < |entries| && entries[i] == entry;
        TailFacts(granted, entries, clock, windowS);
        assert Amounts(entries) == held[i := tokens as real];
        SumUpdate(held, i, tokens as real);
      } else {
        assert Amounts(entries) == held;
      }
    }

    /** Safety: at any moment from the latest reading on, everything granted within the last window, listed or not,
        sums to at most the allowance or is one single request. */
    lemma WindowIsRespected(t: real)
      requires Valid() && Fits(entries) && clock <= t
      ensures Fits(Keep(granted, t - windowS))
    {
      hide Nonneg, Amounts, Sum, Tracks, Keep;
      var k := RecentAreListed(granted, entries, clock, t, windowS);
      KeptFits(entries, k);
    }

    /** How many granted entries are no longer listed. */
    ghost function Dropped(): int
      reads this
    {
      |granted| - |entries|
    }

    /** A reading that finds the j-th granted entry expired drops it, if it was not dropped before. */
    lemma DropsExpired(now: real, j: nat)
      requires Valid() && clock <= now && j < |granted| && granted[j].at <= now - windowS
      ensures |granted| - |Keep(entries, now - windowS)| > j
    {
      ForgetKeepsTrack(granted, entries, clock, now, windowS);
    }

    /** A reading never brings a dropped entry back. */
    lemma DropsMore(now: real)
      requires Valid() && clock <= now
      ensures |granted| - |Keep(entries, now - windowS)| >= Dropped() >= 0
    {
      ForgetKeepsTrack(granted, entries, clock, now, windowS);
    }

    /** What other callers do in the meantime: each takes one pass, `delay` after the one before. */
    method OthersPass(now: real, rivals: seq<Rival>) returns (later: real)
      requires Valid() && clock <= now && forall i :: 0 <= i < |rivals| ==> rivals[i].delay >= 0.0
      modifies this
      ensures Valid() && clock <= later && now <= later
      ensures old(granted) <= granted && |granted| <= |old(granted)| + |rivals| && Dropped() >= old(Dropped())
      ensures old(Fits(entries)) ==> Fits(entries)
    {
      hide Tracks, Keep, Amounts, Nonneg, Sum;
      later := now;
      for i := 0 to |rivals|
        invariant Valid() && clock <= later && now <= later
        invariant old(granted) <= granted && |granted| <= |old(granted)| + i && Dropped() >= old(Dropped())
        invariant old(Fits(entries)) ==> Fits(entries)
      {
        later := later + rivals[i].delay;
        DropsMore(later);
        var e, wait := TryAcquire(later, rivals[i].tokens);
      }
    }

    /** One sleep and the pass after it. The sleep lasts at least until the oldest entry expires, `extra` longer than
        asked, and others take passes meanwhile. */
    method SleepAndRetry(now: real, wait: real, tokens: nat, extra: real, rivals: seq<Rival>)
        returns (later: real, e: Entry?, wait': real)
      requires Valid() && clock <= now && entries != [] && wait == entries[0].at + windowS - now && extra >= 0.0
      requires forall i :: 0 <= i < |rivals| ==> rivals[i].delay >= 0.0
      modifies this
      ensures Valid() && clock <= later && now <= later
      ensures old(granted) <= granted && (rivals == [] ==> |granted| == |old(granted)| + (if e == null then 0 else 1))
      ensures e != null ==>
                && fresh(e) && e.tokens == tokens as real && e.at == clock == later && e in entries
                && |granted| > |old(granted)| && granted[|granted| - 1] == e
      ensures e == null ==> entries != [] && wait' == entries[0].at + windowS - later
      ensures old(Dropped()) < Dropped() < |granted|
      ensures old(Fits(entries)) ==> Fits(entries)
    {
      hide Tracks, Keep, Amounts, Nonneg, Sum, Fits;
      OldestListed();
      var wake := now + (if wait > 0.05 then wait else 0.05);
      later := OthersPass(now, rivals);
      later := (if later < wake then wake else later) + extra;
      assert granted[old(Dropped())] == old(granted)[old(Dropped())];
      DropsExpired(later, old(Dropped()));
      e, wait' := TryAcquire(later, tokens);
    }

    /** One caller's `acquire`, with others taking passes while it sleeps: `rivals[i]` are theirs during the i-th sleep,
        none after the last listed one. Each sleep lasts at least until the entry then oldest expires (`overshoot(i)` is
        how much longer than asked it takes), so there are no more sleeps than entries that were listed at the start or
        granted to others since; alone, no more than were listed. */
    method Acquire(start: real, tokens: nat, overshoot: nat -> real, rivals: seq<seq<Rival>>) returns (entry: Entry, sleeps: nat)
      requires Valid() && clock <= start && forall i :: overshoot(i) >= 0.0
      requires forall i, j :: 0 <= i < |rivals| && 0 <= j < |rivals[i]| ==> rivals[i][j].delay >= 0.0
      modifies this
      ensures Valid() && fresh(entry) && entry.tokens == tokens as real && clock == entry.at >= start
      ensures entry in entries && old(granted) <= granted && |granted| > |old(granted)| && granted[|granted| - 1] == entry
      ensures sleeps <= |old(entries)| + (|granted| - 1 - |old(granted)|)
      ensures rivals == [] ==> granted == old(granted) + [entry] && sleeps <= |old(entries)|
      ensures old(Fits(entries)) ==> Fits(entries)
    {
      hide Tracks, Keep, Amounts, Nonneg, Sum, Fits;
      var now := start;
      sleeps := 0;
      DropsMore(now);
      var e, wait := TryAcquire(now, tokens);
      while e == null
        invariant Valid() && clock <= now && start <= now
        invariant old(granted) <= granted && (rivals == [] ==> |granted| == |old(granted)| + (if e == null then 0 else 1))
        invariant e != null ==>
                    && fresh(e) && e.tokens == tokens as real && clock == e.at >= start && e in entries
                    && |granted| > |old(granted)| && granted[|granted| - 1] == e
        invariant e == null ==> entries != [] && wait == entries[0].at + windowS - now
        invariant 0 <= sleeps + old(Dropped()) <= Dropped() < |granted|
        invariant old(Fits(entries)) ==> Fits(entries)
        decreases e == null, if sleeps < |rivals| then |rivals| - sleeps else 0, |granted| - old(Dropped()) - sleeps
      {
        now, e, wait := SleepAndRetry(now, wait, tokens, overshoot(sleeps), if sleeps < |rivals| then rivals[sleeps] else []);
        sleeps := sleeps + 1;
      }
      entry := e;
    }

    lemma OldestListed()
      requires Valid() && entries != []
      ensures 0 <= Dropped() < |granted| && granted[Dropped()] == entries[0]
    {
    }
  }

  /** Kept entries are listed entries, so their amounts are readable wherever the list's are. */
  lemma {:induction false} KeptAreOld(es: seq<Entry>, cut: real)
    ensures forall e :: e in Keep(es, cut) ==> e in es
  {
    if es != [] { KeptAreOld(es[1..], cut); }
  }

  /** Correcting an estimate upwards can break the bound: two live entries that fill the allowance, one then settled one
      token higher. */
  method SettlingUpBreaksTheBound() returns (w: InputTokenWindow)
    ensures w.Valid() && |w.entries| == 2 && !w.Fits(w.entries)
  {
    hide Tracks, Nonneg;
    w := new InputTokenWindow(10, 60.0, 0.0);
    assert Keep([], -60.0) == [];
    var a, _ := w.TryAcquire(0.0, 5);
    assert w.entries == [a] && Keep([a], -60.0) == [a] && Amounts([a]) == [5.0] && Sum([5.0]) == 5.0;
    var b, _ := w.TryAcquire(0.0, 5);
    assert w.entries == [a, b] && Amounts([a, b]) == [5.0, 5.0];
    assert [5.0, 5.0] == [5.0] + [5.0];
    SumAppend([5.0], 5.0);
    w.Settle(b, 6);
  }
}
