/** Properties of the trusted-domains command that relate several calls or
    several runs of it. */
module TrustedDomainsProperties {
  import opened Wrappers
  import opened Seqs
  import opened TrustedDomains

  /** Toggling twice from a list without the wildcard gives the list back. */
  lemma {:induction false} ToggleTwiceRestores(domains: seq<string>)
    requires Wildcard !in domains
    ensures ToggleWildcard(ToggleWildcard(domains)) == domains
  {
    WithoutAppended(domains, Wildcard);
    WithoutAbsent(domains, Wildcard);
  }

  /** With exactly one wildcard, toggling twice keeps the same entries with
      the same multiplicities, but moves the wildcard to the end. */
  lemma ToggleTwicePermutes(domains: seq<string>)
    requires multiset(domains)[Wildcard] == 1
    ensures multiset(ToggleWildcard(ToggleWildcard(domains))) == multiset(domains)
    ensures ToggleWildcard(ToggleWildcard(domains)) == Without(domains, Wildcard) + [Wildcard]
  {
    var twice := ToggleWildcard(ToggleWildcard(domains));
    SameCountsAgree(multiset(twice), multiset(domains), Wildcard);
  }

  /** Two multisets that agree on `x` and on everything else are equal. */
  lemma SameCountsAgree<T>(a: multiset<T>, b: multiset<T>, x: T)
    requires a[x := 0] == b[x := 0] && a[x] == b[x]
    ensures a == b
  {
    forall y
      ensures a[y] == b[y]
    {
      if y != x {
        assert a[x := 0][y] == b[x := 0][y];
      }
    }
  }

  /** ... so the list comes back unchanged when the wildcard was last ... */
  lemma {:induction false} ToggleTwiceWildcardLast(others: seq<string>)
    requires Wildcard !in others
    ensures ToggleWildcard(ToggleWildcard(others + [Wildcard])) == others + [Wildcard]
  {
    WithoutAppended(others, Wildcard);
    WithoutAbsent(others, Wildcard);
  }

  /** ... and only then. */
  lemma ToggleTwiceRestoresOnlyIfLast(domains: seq<string>)
    requires multiset(domains)[Wildcard] == 1
    requires ToggleWildcard(ToggleWildcard(domains)) == domains
    ensures |domains| > 0 && domains[|domains| - 1] == Wildcard
    ensures Wildcard !in domains[..|domains| - 1]
  {
    ToggleTwicePermutes(domains);
  }

  /** The list after `n` toggles in a row. */
  function Toggles(domains: seq<string>, n: nat): seq<string>
    decreases n
  {
    if n == 0 then domains else ToggleWildcard(Toggles(domains, n - 1))
  }

  lemma TogglesStep(domains: seq<string>, n: nat)
    ensures Toggles(domains, n + 1) == ToggleWildcard(Toggles(domains, n))
  {
  }

  /** Two more toggles from the list without the wildcard pass through the
      list with the wildcard appended and come back. */
  lemma TogglePairStep(domains: seq<string>, n: nat)
    requires Wildcard !in domains
    requires Toggles(domains, n) == domains
    ensures Toggles(domains, n + 1) == domains + [Wildcard]
    ensures Toggles(domains, n + 2) == domains
  {
    TogglesStep(domains, n);
    TogglesStep(domains, n + 1);
    ToggleTwiceRestores(domains);
  }

  /** Two more toggles from a point where the list was given back give it
      back again; `n` names `m + 2` so the caller passes both positions. */
  lemma TogglesEvenStep(domains: seq<string>, m: nat, n: nat)
    requires Wildcard !in domains
    requires n == m + 2
    requires Toggles(domains, m) == domains
    ensures Toggles(domains, n) == domains
  {
    TogglePairStep(domains, m);
  }

  /** From a list without the wildcard, an even number of toggles gives the
      list back ... */
  lemma {:induction false} TogglesEven(domains: seq<string>, k: nat)
    requires Wildcard !in domains
    ensures Toggles(domains, 2 * k) == domains
    decreases k
  {
    var n := 2 * k;
    if k == 0 {
      assert Toggles(domains, n) == Toggles(domains, 0);
    } else {
      var m := 2 * (k - 1);
      TogglesEven(domains, k - 1);
      TogglesEvenStep(domains, m, n);
    }
  }

  /** ... and an odd number gives it with the wildcard appended. */
  lemma TogglesOdd(domains: seq<string>, k: nat)
    requires Wildcard !in domains
    ensures Toggles(domains, 2 * k + 1) == domains + [Wildcard]
  {
    TogglesEven(domains, k);
    TogglePairStep(domains, 2 * k);
  }

  /** However many toggles, the list then holds at most one wildcard. */
  lemma TogglesAtMostOneWildcard(domains: seq<string>, n: nat)
    requires n >= 1
    ensures multiset(Toggles(domains, n))[Wildcard] <= 1
  {
  }

  /** The menu wording announces what the toggle entry will do: "Open all
      links without prompt" exactly when the written list trusts everything. */
  lemma LabelPredictsToggle(domains: seq<string>)
    ensures ToggleLabelFor(domains) == TrustAll <==> Wildcard in ToggleWildcard(domains)
  {
  }

  /** What one run writes is what the next run starts from. */
  lemma HandleReadsBack(productDefault: Option<seq<string>>, stored: StoredValue, choice: Choice)
    ensures var written := Transition(StartingList(productDefault, stored), choice, productDefault);
            written.Some? ==> StartingList(productDefault, Handle(productDefault, stored, choice)) == written.value
  {
  }

  /** Two runs choosing the toggle entry leave storage holding the list the
      first run started from, when that list had no wildcard. */
  lemma ToggleTwiceThroughStorage(productDefault: Option<seq<string>>, stored: StoredValue)
    requires Wildcard !in StartingList(productDefault, stored)
    ensures Handle(productDefault, Handle(productDefault, stored, ToggleAll), ToggleAll)
            == Persist(StartingList(productDefault, stored))
  {
    var start := StartingList(productDefault, stored);
    var first := Handle(productDefault, stored, ToggleAll);
    assert first == Persist(ToggleWildcard(start));
    assert StartingList(productDefault, first) == ToggleWildcard(start);
    ToggleTwiceRestores(start);
  }

  /** Add writes the list with the entered text appended, whatever
      `ValidateInput` returns for that text: the handler never consults it. */
  lemma AddAppendsEnteredText(domains: seq<string>, entry: string, productDefault: Option<seq<string>>)
    ensures Transition(domains, Add(entry), productDefault) == Some(domains + [entry])
  {
  }

  /** Leaving every Configure item checked removes the wildcard and nothing
      else: the same list "Open all links with prompt" writes. */
  lemma ConfigureUncheckedNothingIsUntrust(domains: seq<string>)
    requires Wildcard in domains
    ensures ConfigureDomains(domains, Some({})) == Some(ToggleWildcard(domains))
  {
  }

  /** A list written by Configure is offered back whole by the next Configure. */
  lemma ConfigureStable(domains: seq<string>, unchecked: set<nat>)
    ensures var r := ConfigureDomains(domains, Some(unchecked)).value;
            ConfigureDomains(r, Some({})) == Some(r)
  {
    var r := ConfigureDomains(domains, Some(unchecked)).value;
    WithoutAbsent(r, Wildcard);
  }

  /** An unchecked entry that appears nowhere else in the offered list is
      not written. */
  lemma ConfigureDropsUnchecked(domains: seq<string>, unchecked: set<nat>, i: nat)
    requires i < |Without(domains, Wildcard)| && i in unchecked
    requires forall k :: 0 <= k < |Without(domains, Wildcard)| && k != i
                         ==> Without(domains, Wildcard)[k] != Without(domains, Wildcard)[i]
    ensures Without(domains, Wildcard)[i] !in ConfigureDomains(domains, Some(unchecked)).value
  {
  }

  /** With a product default, Reset makes the next run start from it. */
  lemma ResetRestoresDefault(productDefault: Option<seq<string>>, stored: StoredValue)
    requires productDefault.Some?
    ensures Handle(productDefault, stored, Reset) == Persist(productDefault.value)
    ensures StartingList(productDefault, Handle(productDefault, stored, Reset)) == productDefault.value
  {
  }
}
