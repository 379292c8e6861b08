/** Day 22: monkey market. Each buyer's secret number evolves by a fixed
    24-bit mixing step; the last digit of each secret is a price, and a
    buyer sells at the first moment its last four price changes match the
    sequence the seller names. */
module Day22 {
  import opened Common

  /** usize, the source's word: secrets are 64-bit values. */
  type Word = bv64

  /** The three mix-and-prune steps of generate: xor the shifted secret
      into it, then keep the low 24 bits (the mask (1 << 24) - 1). A left
      shift drops the bits pushed past bit 63, as Rust's does. */
  function MixLeft6(s: Word): Word { ((s << 6) ^ s) & 0xFF_FFFF }
  function MixRight5(s: Word): Word { ((s >> 5) ^ s) & 0xFF_FFFF }
  function MixLeft11(s: Word): Word { ((s << 11) ^ s) & 0xFF_FFFF }

  /** generate: the next secret number, always below 2^24. */
  function Generate(secret: Word): (r: Word)
    ensures r < 0x100_0000
  {
    MixLeft11(MixRight5(MixLeft6(secret)))
  }

  /** Only the low 24 bits of a secret decide its successor. */
  lemma GenerateLow(secret: Word)
    ensures Generate(secret) == Generate(secret & 0xFF_FFFF)
  {
  }

  /** The first secrets a buyer starting at 123 produces. */
  lemma GenerateFromOneTwoThree()
    ensures Generate(123) == 15887950
    ensures Generate(15887950) == 16495136
    ensures Generate(16495136) == 527345
  {
  }

  /** The secret after n steps; after at least one it is below 2^24. */
  function Nth(secret: Word, n: nat): (r: Word)
    ensures n > 0 ==> r < 0x100_0000
  {
    if n == 0 then secret else Generate(Nth(secret, n - 1))
  }

  /** Evolving m steps and then n more is evolving m + n steps. */
  lemma {:induction false} NthAdd(secret: Word, m: nat, n: nat)
    ensures Nth(Nth(secret, m), n) == Nth(secret, m + n)
  {
    if n > 0 {
      NthAdd(secret, m, n - 1);
    }
  }

  /** The evolution loop of part_1: generate applied n times. */
  method Evolve(start: Word, n: nat) returns (secret: Word)
    ensures secret == Nth(start, n)
  {
    secret := start;
    for i := 0 to n
      invariant secret == Nth(start, i)
    {
      secret := Generate(secret);
    }
  }

  /** The sum of the 2000th secrets of all buyers. */
  function FinalSum(initials: seq<Word>): nat
  {
    if initials == [] then 0 else FinalSum(initials[..|initials| - 1]) + Nth(initials[|initials| - 1], 2000) as nat
  }

  /** The sum splits over any division of the buyers. */
  lemma {:induction false} FinalSumAppend(a: seq<Word>, b: seq<Word>)
    ensures FinalSum(a + b) == FinalSum(a) + FinalSum(b)
    decreases |b|
  {
    if b != [] {
      var b' := b[..|b| - 1];
      assert (a + b)[..|a + b| - 1] == a + b';
      FinalSumAppend(a, b');
    } else {
      assert a + b == a;
    }
  }

  method Part1(initials: seq<Word>) returns (sum: nat)
    ensures sum == FinalSum(initials)
  {
    sum := 0;
    for i := 0 to |initials|
      invariant sum == FinalSum(initials[..i])
    {
      var secret := Evolve(initials[i], 2000);
      assert initials[..i + 1][..i] == initials[..i];
      sum := sum + secret as nat;
    }
    assert initials[..|initials|] == initials;
  }

  // Prices and their changes.

  /** The prices after each of the first n steps: the last digit of each
      new secret. */
  function Prices(start: Word, n: nat): (r: seq<nat>)
    ensures |r| == n
  {
    if n == 0 then [] else Prices(start, n - 1) + [Nth(start, n) as nat % 10]
  }

  /** The i-th price is the last digit of the secret after i + 1 steps. */
  lemma {:induction false} PricesAt(start: Word, n: nat, i: nat)
    requires i < n
    ensures Prices(start, n)[i] == Nth(start, i + 1) as nat % 10 <= 9
  {
    if i < n - 1 {
      PricesAt(start, n - 1, i);
    }
  }

  /** The price loop of part_2: generate, then record the last digit. */
  method PriceRun(start: Word, n: nat) returns (costs: seq<nat>)
    ensures costs == Prices(start, n)
  {
    var secret := start;
    costs := [];
    for i := 0 to n
      invariant secret == Nth(start, i) && costs == Prices(start, i)
    {
      secret := Generate(secret);
      costs := costs + [secret as nat % 10];
    }
  }

  /** Four consecutive price changes. */
  type Key = seq<int>

  /** Each window of five prices: its four changes and the fifth price. */
  function Windows(costs: seq<nat>): (r: seq<(Key, nat)>)
    ensures |r| == if |costs| < 5 then 0 else |costs| - 4
    ensures forall i :: 0 <= i < |r| ==> r[i] == (Changes(costs[i..i + 5]), costs[i + 4])
  {
    if |costs| < 5 then []
    else
      var rest := Windows(costs[1..]);
      assert forall i :: 0 <= i < |rest| ==> rest[i] == (Changes(costs[i + 1..i + 6]), costs[i + 5]);
      [(Changes(costs[..5]), costs[4])] + rest
  }

  function Changes(w: seq<nat>): (r: Key)
    requires |w| == 5
    ensures |r| == 4 && forall j :: 0 <= j < 4 ==> r[j] == w[j + 1] as int - w[j]
  {
    [w[1] as int - w[0], w[2] as int - w[1], w[3] as int - w[2], w[4] as int - w[3]]
  }

  /** Prices are digits, so every change lies in -9..9. */
  lemma ChangesBounded(costs: seq<nat>)
    requires forall i :: 0 <= i < |costs| ==> costs[i] <= 9
    ensures forall i :: 0 <= i < |Windows(costs)| ==>
      Windows(costs)[i].1 <= 9 && forall j :: 0 <= j < 4 ==> -9 <= Windows(costs)[i].0[j] <= 9
  {
  }

  /** unique_by on the key, collected into a map: the price of the first
      window with each key. */
  function FirstOffers(ws: seq<(Key, nat)>): (r: map<Key, nat>)
    ensures forall k :: k in r <==> exists i :: 0 <= i < |ws| && ws[i].0 == k
  {
    if ws == [] then map[]
    else
      var rest := FirstOffers(ws[1..]);
      assert forall i :: 0 < i < |ws| ==> ws[i] == ws[1..][i - 1];
      rest[ws[0].0 := ws[0].1]
  }

  /** Each key is offered at the price of its first window. */
  lemma {:induction false} FirstOffersFirst(ws: seq<(Key, nat)>, i: nat)
    requires i < |ws| && forall j :: 0 <= j < i ==> ws[j].0 != ws[i].0
    ensures ws[i].0 in FirstOffers(ws) && FirstOffers(ws)[ws[i].0] == ws[i].1
  {
    if i > 0 {
      FirstOffersFirst(ws[1..], i - 1);
    }
  }

  /** What one buyer pays for a key: its first offer, or nothing. */
  function Offer(offers: map<Key, nat>, key: Key): nat
  {
    if key in offers then offers[key] else 0
  }

  /** The bananas a key earns over all buyers. */
  function Earned(key: Key, offers: seq<map<Key, nat>>): nat
  {
    if offers == [] then 0 else Earned(key, offers[..|offers| - 1]) + Offer(offers[|offers| - 1], key)
  }

  /** A key no buyer offers for earns nothing. */
  lemma {:induction false} EarnedNone(key: Key, offers: seq<map<Key, nat>>)
    requires forall i :: 0 <= i < |offers| ==> key !in offers[i]
    ensures Earned(key, offers) == 0
  {
    if offers != [] {
      EarnedNone(key, offers[..|offers| - 1]);
    }
  }

  /** Every buyer's offers, for the first n prices after its start. */
  function Buyers(initials: seq<Word>, n: nat): (r: seq<map<Key, nat>>)
    ensures |r| == |initials|
    ensures forall i :: 0 <= i < |r| ==> r[i] == FirstOffers(Windows(Prices(initials[i], n)))
  {
    seq(|initials|, i requires 0 <= i < |initials| => FirstOffers(Windows(Prices(initials[i], n))))
  }

  /** The keys of one buyer's windows, in order. */
  function KeysOf(ws: seq<(Key, nat)>): (r: seq<Key>)
    ensures |r| == |ws| && forall i :: 0 <= i < |ws| ==> r[i] == ws[i].0
  {
    if ws == [] then [] else [ws[0].0] + KeysOf(ws[1..])
  }

  /** The keys any buyer offers for, in the order they are met. */
  function AllKeys(offers: seq<seq<(Key, nat)>>): seq<Key>
  {
    if offers == [] then [] else KeysOf(offers[0]) + AllKeys(offers[1..])
  }

  lemma {:induction false} AllKeysMembers(offers: seq<seq<(Key, nat)>>, k: Key)
    ensures k in AllKeys(offers) <==> exists b, i :: 0 <= b < |offers| && 0 <= i < |offers[b]| && offers[b][i].0 == k
  {
    if offers != [] {
      AllKeysMembers(offers[1..], k);
      var here := KeysOf(offers[0]);
      if k in here {
        var i :| 0 <= i < |here| && here[i] == k;
        assert offers[0][i].0 == k;
      }
      if b, i :| 0 <= b < |offers| && 0 <= i < |offers[b]| && offers[b][i].0 == k {
        if b == 0 {
          assert here[i] == k;
        } else {
          assert offers[1..][b - 1][i].0 == k;
        }
      }
    }
  }

  /** The largest earning over the keys, or None when there are none. */
  function Best(keys: seq<Key>, offers: seq<map<Key, nat>>): (r: Option<nat>)
    ensures r.None? <==> keys == []
    ensures r.Some? ==> (exists k :: k in keys && Earned(k, offers) == r.value)
    ensures r.Some? ==> forall k :: k in keys ==> Earned(k, offers) <= r.value
  {
    if keys == [] then None
    else
      var rest := Best(keys[1..], offers);
      var here := Earned(keys[0], offers);
      if rest.Some? && rest.value > here then rest else Some(here)
  }

  /** part_2: the best total over the keys of all buyers' 2000-price runs. */
  method Part2(initials: seq<Word>) returns (earned: Option<nat>)
    ensures earned == Best(AllKeys(WindowsOf(initials)), Buyers(initials, 2000))
  {
    var windows: seq<seq<(Key, nat)>> := [];
    var offers: seq<map<Key, nat>> := [];
    for i := 0 to |initials|
      invariant windows == WindowsOf(initials[..i])
      invariant offers == Buyers(initials[..i], 2000)
    {
      var costs := PriceRun(initials[i], 2000);
      windows := windows + [Windows(costs)];
      offers := offers + [FirstOffers(Windows(costs))];
    }
    assert initials[..|initials|] == initials;
    earned := Best(AllKeys(windows), offers);
  }

  function WindowsOf(initials: seq<Word>): (r: seq<seq<(Key, nat)>>)
    ensures |r| == |initials| && forall i :: 0 <= i < |r| ==> r[i] == Windows(Prices(initials[i], 2000))
  {
    seq(|initials|, i requires 0 <= i < |initials| => Windows(Prices(initials[i], 2000)))
  }

  /** No key outside the buyers' windows earns more than the best, so the
      best is the maximum over every possible key. */
  lemma BestOverall(initials: seq<Word>, key: Key)
    requires Best(AllKeys(WindowsOf(initials)), Buyers(initials, 2000)).Some?
    ensures Earned(key, Buyers(initials, 2000)) <= Best(AllKeys(WindowsOf(initials)), Buyers(initials, 2000)).value
  {
    var ws, offers := WindowsOf(initials), Buyers(initials, 2000);
    if key !in AllKeys(ws) {
      AllKeysMembers(ws, key);
      EarnedNone(key, offers);
    }
  }
}
