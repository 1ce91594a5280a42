/** The "Configure Trusted Domains Settings for Link Protection" command of
    src/vs/workbench/contrib/url/common/trustedDomains.ts, as a pure
    transition: from what storage and the product hold, and the user's
    answers to the prompts, to what is written back to storage. */
module TrustedDomains {
  import opened Wrappers
  import opened Seqs

  /** The entry that means "trust every domain". */
  const Wildcard: string := "*"

  /** What `storageService.get('http.linkProtectionTrustedDomains', GLOBAL)`
      yields, after `JSON.parse` where the code calls it. `Blank` is the empty
      text, which the handler's truthiness test skips without parsing;
      `Unparseable` is any text on which `JSON.parse` throws. */
  datatype StoredValue = Absent | Blank | Unparseable | Parsed(list: seq<string>)

  /** What a store of `list` leaves behind: `JSON.stringify` of a string array
      is never blank and parses back to the same array. */
  function Persist(list: seq<string>): StoredValue
  {
    Parsed(list)
  }

  /** The user's answer to the top-level picker, with the answer to the
      follow-up prompt where there is one. For Configure, `unchecked` is the
      set of positions the user unticked in the multi-select list, or `None`
      when the user dismissed that list. */
  datatype Choice =
    | ToggleAll
    | Add(entry: string)
    | Configure(unchecked: Option<set<nat>>)
    | Reset
    | Cancel

  /** The two wordings of the first menu entry. */
  datatype ToggleLabel =
    | TrustAll    // "Open all links without prompt"
    | UntrustAll  // "Open all links with prompt"

  /** One row of the Configure multi-select list (`caption` is the item's `label`). */
  datatype PickItem = PickItem(id: string, caption: string, picked: bool)

  /** The list the handler starts from: a copy of the product default (or the
      empty list), replaced by the parsed stored list when storage holds a
      non-blank text that parses. */
  function StartingList(productDefault: Option<seq<string>>, stored: StoredValue): (r: seq<string>)
    ensures stored.Parsed? ==> r == stored.list
    ensures !stored.Parsed? && productDefault.Some? ==> r == productDefault.value
    ensures !stored.Parsed? && productDefault.None? ==> r == []
  {
    match stored
    case Parsed(list) => list
    case _ => productDefault.GetOr([])
  }

  /** The wording of the toggle entry, chosen by `indexOf('*') === -1`. */
  function ToggleLabelFor(domains: seq<string>): (r: ToggleLabel)
    ensures r == TrustAll <==> Wildcard !in domains
  {
    if IndexOf(domains, Wildcard) == -1 then TrustAll else UntrustAll
  }

  /** `toggleAll`: append the wildcard when it is missing, otherwise filter
      every copy of it out. */
  function ToggleWildcard(domains: seq<string>): (r: seq<string>)
    ensures Wildcard !in domains ==> r == domains + [Wildcard]
    ensures Wildcard in domains ==> Wildcard !in r
    ensures multiset(r)[Wildcard] == if Wildcard in domains then 0 else 1
    ensures multiset(r)[Wildcard := 0] == multiset(domains)[Wildcard := 0]
  {
    if IndexOf(domains, Wildcard) == -1 then
      assert multiset(domains + [Wildcard]) == multiset(domains) + multiset{Wildcard};
      domains + [Wildcard]
    else
      Without(domains, Wildcard)
  }

  /** Toggling brings in no entry other than the wildcard. */
  lemma ToggleAddsOnlyWildcard(domains: seq<string>)
    ensures forall d :: d in ToggleWildcard(domains) ==> d in domains || d == Wildcard
  {
    var t := ToggleWildcard(domains);
    forall d | d in t && d != Wildcard
      ensures d in domains
    {
      assert multiset(t)[Wildcard := 0][d] == multiset(t)[d];
      assert multiset(domains)[Wildcard := 0][d] == multiset(domains)[d];
    }
  }

  /** Toggling keeps the other entries in their order: the result lies
      between the filtered list and the list with a wildcard appended. */
  lemma ToggleKeepsOrder(domains: seq<string>)
    ensures IsSubsequence(Without(domains, Wildcard), ToggleWildcard(domains))
    ensures IsSubsequence(ToggleWildcard(domains), domains + [Wildcard])
  {
    var w := Without(domains, Wildcard);
    WithoutIsSubsequence(domains, Wildcard);
    if Wildcard in domains {
      SubsequenceReflexive(w);
      SubsequenceExtend(w, domains, Wildcard);
    } else {
      WithoutAbsent(domains, Wildcard);
      SubsequenceExtend(domains, domains, Wildcard);
      SubsequenceReflexive(domains + [Wildcard]);
    }
  }

  /** The validator given to the Add input box: the text itself when it
      starts with `http://` or `https://` (the pattern `^https?:\/\/`),
      `undefined` otherwise. */
  function ValidateInput(input: string): (r: Option<string>)
    ensures r.Some? <==> ("http://" <= input || "https://" <= input)
    ensures r.Some? ==> r.value == input
  {
    if |input| >= 4 && input[..4] == "http" then
      var rest := if |input| > 4 && input[4] == 's' then input[5..] else input[4..];
      if "://" <= rest then Some(input) else None
    else None
  }

  /** `addDomain`: the entered text is appended, whatever the validator said. */
  function AddDomain(domains: seq<string>, entry: string): (r: seq<string>)
    ensures |r| == |domains| + 1
    ensures r[..|domains|] == domains
    ensures r[|domains|] == entry
  {
    domains + [entry]
  }

  /** The items of the Configure list: every non-wildcard entry, pre-checked. */
  function Offered(domains: seq<string>): (r: seq<PickItem>)
    ensures |r| == |Without(domains, Wildcard)|
    ensures forall i :: 0 <= i < |r| ==> r[i].picked && r[i].caption == r[i].id
    ensures forall i :: 0 <= i < |r| ==> r[i].id != Wildcard && r[i].id in domains
    ensures Ids(r) == Without(domains, Wildcard)
  {
    var w := Without(domains, Wildcard);
    assert forall i :: 0 <= i < |w| ==> w[i] in multiset(w);
    seq(|w|, i requires 0 <= i < |w| => PickItem(w[i], w[i], true))
  }

  /** Every entry other than the wildcard is offered. */
  lemma OfferedCoversDomains(domains: seq<string>, d: string)
    requires d in domains && d != Wildcard
    ensures exists i :: 0 <= i < |Offered(domains)| && Offered(domains)[i].id == d
  {
    var w := Without(domains, Wildcard);
    assert d in multiset(w);
    var i :| 0 <= i < |w| && w[i] == d;
    assert Offered(domains)[i].id == d;
  }

  /** The ids of picked items, `result.map(r => r.id!)`. */
  function Ids(items: seq<PickItem>): (r: seq<string>)
    ensures |r| == |items|
    ensures forall i :: 0 <= i < |items| ==> r[i] == items[i].id
  {
    seq(|items|, i requires 0 <= i < |items| => items[i].id)
  }

  /** Picking items and then taking their ids is taking the ids and then
      picking: both keep the same positions. */
  lemma IdsOfSelect(items: seq<PickItem>, dropped: set<nat>)
    ensures Ids(Select(items, dropped)) == Select(Ids(items), dropped)
  {
  }

  /** The ids of the items left checked are the non-wildcard entries at the
      positions left checked; none of them is the wildcard and all of them
      come from the list. */
  lemma OfferedIdsOfSelect(domains: seq<string>, unchecked: set<nat>)
    ensures Ids(Select(Offered(domains), unchecked)) == Select(Without(domains, Wildcard), unchecked)
    ensures Wildcard !in Select(Without(domains, Wildcard), unchecked)
    ensures forall d :: d in Select(Without(domains, Wildcard), unchecked) ==> d in domains
  {
    var w := Without(domains, Wildcard);
    var picked := Select(w, unchecked);
    IdsOfSelect(Offered(domains), unchecked);
    SelectSubMultiset(w, unchecked);
    assert multiset(picked) <= multiset(w);
    assert forall d :: d in picked ==> d in multiset(picked);
  }

  /** `configureDomains`: the entries left checked are stored, in order; a
      dismissed list stores nothing. The wildcard is never offered, so it is
      never stored. */
  function ConfigureDomains(domains: seq<string>, unchecked: Option<set<nat>>): (r: Option<seq<string>>)
    ensures r.Some? <==> unchecked.Some?
    ensures r.Some? ==> Wildcard !in r.value
    ensures r.Some? ==> forall d :: d in r.value ==> d in domains
    ensures r.Some? ==> forall i :: 0 <= i < |Without(domains, Wildcard)| && i !in unchecked.value
                           ==> Without(domains, Wildcard)[i] in r.value
    ensures r.Some? ==> forall d :: d in r.value ==>
              exists i :: 0 <= i < |Without(domains, Wildcard)| && i !in unchecked.value
                          && Without(domains, Wildcard)[i] == d
    ensures r.Some? ==> r.value == Select(Without(domains, Wildcard), unchecked.value)
    ensures unchecked == Some({}) ==> r == Some(Without(domains, Wildcard))
  {
    match unchecked
    case None => None
    case Some(u) =>
      var picked := Ids(Select(Offered(domains), u));
      OfferedIdsOfSelect(domains, u);
      Some(picked)
  }

  /** The stored entries keep the order they had in the list. */
  lemma ConfigureKeepsOrder(domains: seq<string>, unchecked: set<nat>)
    ensures IsSubsequence(ConfigureDomains(domains, Some(unchecked)).value, Without(domains, Wildcard))
    ensures IsSubsequence(ConfigureDomains(domains, Some(unchecked)).value, domains)
  {
    var w := Without(domains, Wildcard);
    IdsOfSelect(Offered(domains), unchecked);
    SelectIsSubsequence(w, unchecked);
    WithoutIsSubsequence(domains, Wildcard);
    SubsequenceTransitive(Select(w, unchecked), w, domains);
  }

  /** The value the handler writes to storage, or `None` when it writes
      nothing: one of the four actions applied to the starting list. */
  function Transition(domains: seq<string>, choice: Choice, productDefault: Option<seq<string>>): (r: Option<seq<string>>)
    ensures r.None? <==> (|| choice.Cancel?
                          || (choice.Configure? && choice.unchecked.None?)
                          || (choice.Reset? && productDefault.None?))
    ensures choice.ToggleAll? ==> r == Some(ToggleWildcard(domains))
    ensures choice.Add? ==> r == Some(AddDomain(domains, choice.entry))
    ensures choice.Configure? ==> r == ConfigureDomains(domains, choice.unchecked)
    ensures choice.Reset? ==> r == productDefault
    ensures r.Some? && !choice.Reset? ==>
              forall d :: d in r.value ==> d in domains || d == Wildcard || (choice.Add? && d == choice.entry)
  {
    match choice
    case Cancel => None
    case ToggleAll =>
      ToggleAddsOnlyWildcard(domains);
      Some(ToggleWildcard(domains))
    case Add(entry) => Some(AddDomain(domains, entry))
    case Configure(unchecked) => ConfigureDomains(domains, unchecked)
    case Reset => productDefault
  }

  /** One run of the command: read storage, take the user's choice, write
      back. Storage is left as it was when nothing is written. */
  function Handle(productDefault: Option<seq<string>>, stored: StoredValue, choice: Choice): (r: StoredValue)
    ensures choice.Cancel? ==> r == stored
    ensures choice.Reset? && productDefault.None? ==> r == stored
    ensures choice.Configure? && choice.unchecked.None? ==> r == stored
    ensures r != stored ==> r.Parsed?
    ensures (&& !choice.Cancel?
             && !(choice.Configure? && choice.unchecked.None?)
             && !(choice.Reset? && productDefault.None?)) ==> r.Parsed?
  {
    var written := Transition(StartingList(productDefault, stored), choice, productDefault);
    if written.Some? then Persist(written.value) else stored
  }
}
