/** The trade manager. */
module TradeManagement {
  // A queue of entries, of which each turn settles two, drops one, or passes one to the end (Hermes/Trade/Manager). The
  // exchange rate is computed exactly. What a turn does is stated by the pair it settles and the terms that pair gets.

  import opened Transforms
  import opened TradeEntries

  /** Amounts that change hands: `received` by the entry at the head of the queue, `paid` by it. */
  datatype Terms = NoDeal | Deal(received: int, paid: int)

  /** Entries of different countries, each offering what the other needs. */
  predicate Reciprocal(c: Entry, e: Entry) {
    e.country != c.country && e.offer == c.need && e.need == c.offer
  }

  predicate Enough(c: Entry, e: Entry) {
    e.offered >= c.needed
  }

  predicate Perfect(c: Entry, e: Entry) {
    Reciprocal(c, e) && Enough(c, e) && e.needed <= c.offered
  }

  /** What two reciprocal entries trade: everything offered when both needs are met; all the other offers for
      all it needs when that is less than what is offered; otherwise everything offered at the other's rate,
      rounded down, if that is worth at least one. */
  function TermsOf(c: Entry, e: Entry): Terms {
    if Enough(c, e) && e.needed <= c.offered then Deal(e.offered, c.offered)
    else if e.needed < c.offered then Deal(e.offered, e.needed)
    else
      var rated := Rated(c.offered, e.offered, e.needed);
      if rated < 1 then NoDeal else Deal(rated, c.offered)
  }

  /** amount * offered / needed, rounded down; a rate that is no number counts as zero. */
  function Rated(amount: int, offered: int, needed: int): int {
    if needed <= 0 then 0 else amount * offered / needed
  }

  /** Amounts no country would put negative. */
  predicate Sensible(e: Entry) {
    e.offered >= 0 && e.needed >= 0
  }

  /** Neither side gives more than it offers. */
  lemma TermsWithinOffers(c: Entry, e: Entry)
    requires Sensible(c) && Sensible(e) && TermsOf(c, e).Deal?
    ensures 0 <= TermsOf(c, e).received <= e.offered && 0 <= TermsOf(c, e).paid <= c.offered
  {
    if !(Enough(c, e) && e.needed <= c.offered) && !(e.needed < c.offered) {
      RatedBounded(c.offered, e.offered, e.needed);
    }
  }

  /** The largest whole number of which that many times `each` is at most `worth`. */
  ghost predicate Largest(n: int, each: int, worth: int) {
    n * each <= worth && forall m: int :: m * each <= worth ==> m <= n
  }

  /** Each offer meets the other's need. */
  predicate BothMet(c: Entry, e: Entry) {
    c.needed <= e.offered && e.needed <= c.offered
  }

  /** The amounts, without the order of the rules: if both needs are met everything is given; otherwise the partner
      is paid what it needs, or all there is if that is less, and gives its offer in that proportion. */
  ghost predicate Agreed(c: Entry, e: Entry, received: int, paid: int) {
    if BothMet(c, e) then received == e.offered && paid == c.offered
    else
      && paid == (if e.needed < c.offered then e.needed else c.offered)
      && (if e.needed == 0 then received == e.offered && paid < c.offered
          else Largest(received, e.needed, paid * e.offered) && (received >= 1 || paid < c.offered))
  }

  lemma QuotientIsLargest(worth: int, each: int)
    requires each > 0
    ensures Largest(worth / each, each, worth)
  {
    var q := worth / each;
    assert worth == q * each + worth % each;
    forall m: int | m * each <= worth
      ensures m <= q
    {
      assert (m - q) * each == m * each - q * each;
      TimesPositive(m - q, each);
    }
  }

  lemma LargestIsOne(n: int, m: int, each: int, worth: int)
    requires Largest(n, each, worth) && Largest(m, each, worth)
    ensures n == m
  {
  }

  /** What has been agreed is exactly what the three rules say. */
  lemma TermsExact(c: Entry, e: Entry, received: int, paid: int)
    requires Sensible(c) && Sensible(e)
    ensures TermsOf(c, e) == Deal(received, paid) <==> Agreed(c, e, received, paid)
  {
    if !BothMet(c, e) && e.needed > 0 {
      var p := if e.needed < c.offered then e.needed else c.offered;
      var q := (p * e.offered) / e.needed;
      QuotientIsLargest(p * e.offered, e.needed);
      if e.needed < c.offered {
        ProductIsLargest(e.offered, e.needed);
        LargestIsOne(q, e.offered, e.needed, p * e.offered);
      }
      if Largest(received, e.needed, p * e.offered) {
        LargestIsOne(q, received, e.needed, p * e.offered);
      }
    }
  }

  lemma ProductIsLargest(n: int, each: int)
    requires each > 0
    ensures Largest(n, each, each * n)
  {
    forall m: int | m * each <= each * n
      ensures m <= n
    {
      assert (m - n) * each == m * each - each * n;
      TimesPositive(m - n, each);
    }
  }

  /** There is no deal exactly when the head of the queue offers nothing or what it offers is worth less than one. */
  lemma NoDealExact(c: Entry, e: Entry)
    requires Sensible(c) && Sensible(e)
    ensures TermsOf(c, e).NoDeal? <==>
      !BothMet(c, e) && c.offered <= e.needed && (c.offered == 0 || c.offered * e.offered < e.needed)
  {
    if e.needed > 0 {
      var worth := c.offered * e.offered;
      QuotientIsLargest(worth, e.needed);
      assert worth / e.needed >= 1 <==> worth >= e.needed by {
        assert worth >= e.needed ==> 1 * e.needed <= worth;
        TimesPositive(worth / e.needed, e.needed);
      }
    }
  }

  lemma RatedBounded(amount: int, offered: int, needed: int)
    requires 0 <= amount <= needed && needed > 0 && offered >= 0
    ensures 0 <= Rated(amount, offered, needed) <= offered
  {
    var n := amount * offered;
    var q := n / needed;
    assert (needed - amount) * offered >= 0;
    assert (needed - amount) * offered == needed * offered - n;
    assert n == q * needed + n % needed;
    assert (q - offered) * needed == q * needed - offered * needed;
    TimesPositive(q - offered, needed);
  }

  lemma TimesPositive(x: int, d: int)
    requires d > 0
    ensures x >= 1 ==> x * d >= d
  {
    if x >= 1 {
      assert (x - 1) * d >= 0;
      assert (x - 1) * d == x * d - d;
    }
  }

  class Manager {
    var queue: seq<Entry>
    ghost var settled: seq<Entry>

    constructor ()
      ensures queue == [] && settled == [] && Valid()
    {
      queue, settled := [], [];
    }

    /** Entries in the queue are unsettled; the settled ones come in pairs, each entry in one pair only, and
        every pair has traded by its terms. */
    ghost predicate Valid()
      reads this, queue, settled
    {
      && Distinct(queue) && Distinct(settled) && |settled| % 2 == 0 && (forall e :: e in queue ==> e !in settled)
      && (forall e :: e in queue ==> Waiting(e))
      && (forall i {:trigger settled[i]} :: 0 <= i < |settled| && i % 2 == 0 ==> HaveTraded(settled[i], settled[i + 1]))
    }

    /** The scan over what is left of the queue: the first perfect match, or else the best offer. */
    method Scan(current: Entry) returns (best: Entry?, success: bool)
      requires forall e :: e in queue ==> Waiting(e)
      ensures best == null ==> !success && forall e :: e in queue ==> !Reciprocal(current, e)
      ensures best != null ==> exists k :: 0 <= k < |queue| && best == queue[k] && Chosen(current, queue, k)
      ensures best != null ==> best in queue && Reciprocal(current, best) && (success <==> Perfect(current, best))
    {
      best, success := null, false;
      var i := 0;
      ghost var k := 0;
      while i < |queue|
        invariant 0 <= i <= |queue|
        invariant !success && forall j :: 0 <= j < i ==> !Perfect(current, queue[j])
        invariant best == null ==> forall e :: e in queue[..i] ==> !Reciprocal(current, e)
        invariant best != null ==> 0 <= k < i && best == queue[k] && BestAt(current, queue[..i], k)
      {
        var entry := queue[i];
        if entry.country == current.country {
          i := i + 1;
          continue;
        }
        if entry.offer == current.need && entry.need == current.offer {
          if entry.offered >= current.needed {
            best, k := entry, i;
            if entry.needed <= current.offered {
              success := true;
              return;
            }
          } else {
            if best == null {
              best, k := entry, i;
            } else if entry.offered > best.offered {
              best, k := entry, i;
            }
          }
        }
        i := i + 1;
      }
      assert queue[..i] == queue;
    }

    /** A country puts an entry in. */
    method Add(e: Entry)
      requires Valid() && Waiting(e) && e !in queue && e !in settled
      modifies this`queue
      ensures Valid() && queue == old(queue) + [e]
    {
      queue := queue + [e];
    }

    /** Both sides of a settled pair are given their amounts and marked. */
    method Settle(current: Entry, best: Entry, received: int, paid: int)
      requires Waiting(current) && Waiting(best) && Reciprocal(current, best)
          && TermsOf(current, best) == Deal(received, paid)
      modifies current, best
      ensures HaveTraded(current, best)
    {
      best.SetTaken(received);
      current.SetGiven(received);
      best.SetGiven(paid);
      current.SetTaken(paid);
      var changed := current.SetSuccessToTrue();
      changed := best.SetSuccessToTrue();
    }

    /** The head of the queue. */
    method Take() returns (current: Entry)
      requires Valid() && queue != []
      modifies this`queue
      ensures Valid() && current == old(queue)[0] && queue == old(queue)[1..]
      ensures Waiting(current) && current !in queue && current !in settled
    {
      current := queue[0];
      queue := queue[1..];
    }

    /** The pair is settled and leaves the queue. */
    method Conclude(current: Entry, best: Entry, received: int, paid: int)
      requires Valid() && Waiting(current) && current !in queue && current !in settled && best in queue
      requires Reciprocal(current, best) && TermsOf(current, best) == Deal(received, paid)
      modifies this, current, best
      ensures Valid() && settled == old(settled) + [current, best] && queue == Without(old(queue), best)
    {
      hide Reciprocal, TermsOf;
      WithoutMembers(queue, best);
      Settle(current, best, received, paid);
      queue := Without(queue, best);
      settled := settled + [current, best];
    }

    /** One turn of the loop, with something in the queue. */
    method Turn() returns (ghost pair: seq<Entry>)
      requires Valid() && queue != []
      modifies this, queue
      ensures Valid() && settled == old(settled) + pair
      ensures var c, rest := old(queue)[0], old(queue)[1..];
        if old(queue[0].noMatch) then pair == [] && queue == rest
        else if c.isSurplus || forall e :: e in rest ==> !Reciprocal(c, e) then pair == [] && queue == rest + [c]
        else exists k :: 0 <= k < |rest| && Chosen(c, rest, k) &&
               if TermsOf(c, rest[k]).NoDeal? then pair == [] && queue == rest + [c]
               else pair == [c, rest[k]] && queue == Without(rest, rest[k])
    {
      hide Valid, Reciprocal, Without, Chosen;
      pair := [];
      var current := Take();
      if current.noMatch || current.success {
        return;
      }
      if current.isSurplus {
        Add(current);
        return;
      }
      assert forall e :: e in queue ==> Waiting(e) by { QueueWaits(); }
      var best, success := Scan(current);
      if best == null {
        Add(current);
        return;
      }
      var received, paid;
      if success {
        received, paid := best.offered, current.offered;
      } else if best.needed < current.offered {
        received, paid := best.offered, best.needed;
      } else {
        received, paid := Rated(current.offered, best.offered, best.needed), current.offered;
        if received < 1 {
          Add(current);
          return;
        }
      }
      Conclude(current, best, received, paid);
      pair := [current, best];
    }

    lemma QueueWaits()
      requires Valid()
      ensures forall e :: e in queue ==> Waiting(e)
    {
    }
  }

  lemma {:induction false} WithoutMembers(s: seq<Entry>, e: Entry)
    requires Distinct(s)
    ensures Distinct(Without(s, e))
    ensures forall x :: x in Without(s, e) ==> x in s && x != e
  {
    if s != [] && s[0] != e {
      WithoutMembers(s[1..], e);
      var w := Without(s[1..], e);
      forall i | 0 <= i < |w|
        ensures w[i] != s[0]
      {
        assert w[i] in w;
      }
    }
  }

  /** The place a scan settles on: the first perfect match if there is one, else the best offer. */
  ghost predicate Chosen(c: Entry, s: seq<Entry>, k: nat)
    requires k < |s|
  {
    if forall j :: 0 <= j < |s| ==> !Perfect(c, s[j]) then BestAt(c, s, k)
    else Perfect(c, s[k]) && forall j :: 0 <= j < k ==> !Perfect(c, s[j])
  }

  /** The sequence without the first place a value has in it. */
  function Without(s: seq<Entry>, e: Entry): seq<Entry> {
    if s == [] then [] else if s[0] == e then s[1..] else [s[0]] + Without(s[1..], e)
  }

  ghost predicate Distinct(s: seq<Entry>) {
    forall i, j :: 0 <= i < j < |s| ==> s[i] != s[j]
  }

  /** Not settled, with sensible amounts. */
  ghost predicate Waiting(e: Entry)
    reads e
  {
    !e.success && e.taken.Unset? && e.given.Unset? && Sensible(e)
  }

  /** A settled pair: reciprocal, both marked, what one was given is what the other gave, on the terms of the
      two entries. */
  ghost predicate HaveTraded(c: Entry, e: Entry)
    reads c, e
  {
    && Reciprocal(c, e) && Sensible(c) && Sensible(e) && c.success && e.success
    && match TermsOf(c, e)
       case NoDeal => false
       case Deal(received, paid) =>
         c.given == Set(received) && e.taken == Set(received) && c.taken == Set(paid) && e.given == Set(paid)
  }

  /** What a settled pair gave, on the amounts of the two entries. */
  lemma SettledTerms(c: Entry, e: Entry)
    requires HaveTraded(c, e)
    ensures BothMet(c, e) ==> c.given == Set(e.offered) && e.given == Set(c.offered)
    ensures !BothMet(c, e) ==> e.given.amount <= e.needed
    ensures c.given == Set(e.offered) || e.given == Set(c.offered)
    ensures !BothMet(c, e) && e.given == Set(c.offered) ==>
      c.given.amount >= 1 && Largest(c.given.amount, e.needed, e.given.amount * e.offered)
  {
    TermsExact(c, e, c.given.amount, e.given.amount);
  }

  /** The best offer is the last one that meets the need, or, if none does, the first of the largest. */
  ghost predicate BestAt(c: Entry, s: seq<Entry>, k: nat)
    requires k < |s|
  {
    && Reciprocal(c, s[k])
    && if Enough(c, s[k]) then forall j :: k < j < |s| && Reciprocal(c, s[j]) ==> !Enough(c, s[j])
       else forall j :: 0 <= j < |s| && Reciprocal(c, s[j]) ==>
              !Enough(c, s[j]) && s[j].offered <= s[k].offered && (j < k ==> s[j].offered < s[k].offered)
  }
}
