# Trusted domains for link protection: a Dafny model

This project models the "Configure Trusted Domains Settings for Link
Protection" command of the editor's workbench
(`src/vs/workbench/contrib/url/common/trustedDomains.ts`). The command reads the
list of trusted domains from global storage. It falls back to the product's
`linkProtectionTrustedDomains` when storage holds nothing usable. The list may
contain the wildcard `"*"`, which means "open every link without a prompt".
The command then offers four actions and writes the resulting list back:

- toggle the wildcard ("Open all links without prompt" / "Open all links with prompt");
- add a domain;
- view and configure the list;
- reset to the product default.

Everything is a pure function over immutable sequences of strings.

- `Wrappers` (`wrappers.dfy`) holds `Option`.
- `Seqs` (`seqs.dfy`) holds the sequence operations the command is built from:
  - `IndexOf` is `Array.prototype.indexOf`.
  - `Without` is `filter(x => x !== v)`.
  - `Select` keeps the items of a multi-select list that were left checked.
  - `IsSubsequence` states order preservation.
- `TrustedDomains` (`trusted_domains.dfy`) holds the command:
  - `StartingList` computes the list the command starts from.
  - `ToggleLabelFor` picks the toggle entry's wording.
  - There is one function per action.
  - `Transition` gives the value written for a user choice, or `None` when
    nothing is written.
  - `Handle` is one whole run, from stored value to stored value.
- `TrustedDomainsProperties` (`properties.dfy`) relates several calls and
  several runs.
- `TrustedDomainsScenarios` (`scenarios.dfy`) holds concrete runs.

Modelling choices:

- **Storage.** The stored value is abstracted as `StoredValue = Absent | Blank |
  Unparseable | Parsed(list)`:
  - `Absent` is no value.
  - `Blank` is the empty text, which the handler's truthiness test skips.
  - `Unparseable` is text on which `JSON.parse` throws.
  - `Parsed(list)` is a text that parses to a string array.

  A write of `list` is `Persist(list) == Parsed(list)`, because `JSON.stringify`
  of a string array is never blank and parses back to the same array.
- **User answers as inputs.** The user's answers are the `Choice` parameter:
  `ToggleAll | Add(entry) | Configure(unchecked) | Reset | Cancel`. The Configure
  answer is the set of positions the user unticked in the pre-checked list, or
  `None` when that list was dismissed. In that case the source's `result.map`
  throws inside the `.then` callback, so nothing is stored.

Two consequences of the code are worth stating:

- **Configure drops the wildcard.** Configure offers only the non-wildcard
  entries and stores exactly the ones left checked, so a wildcard in the list
  is never written back. See `TrustedDomainsScenarios.ConfigureDropsWildcard`
  and `TrustedDomainsProperties.ConfigureUncheckedNothingIsUntrust`.
- **Toggling twice.** Toggling twice gives back the same list when the list
  has no wildcard (`ToggleTwiceRestores`) or when its only wildcard is last
  (`ToggleTwiceWildcardLast`). With a single wildcard elsewhere it holds only
  up to order: the wildcard moves to the end (`ToggleTwicePermutes`). With two
  or more wildcards not even the multiset comes back: the first toggle removes
  every wildcard and the second appends one
  (`TrustedDomainsScenarios.ToggleTwiceCollapsesWildcards`).
- **At most one wildcard only after toggling.** A toggle leaves at most one
  wildcard (`TogglesAtMostOneWildcard`), but the stored list has no such
  invariant: Add does not look for duplicates, so adding `*` to `["*"]`
  stores two (`TrustedDomainsScenarios.AddDuplicatesWildcard`).

## Model

| member | source | states |
|---|---|---|
| TrustedDomains.StartingList | src/vs/workbench/contrib/url/common/trustedDomains.ts:38-47 | a parsed stored list is used as it is, even when empty; an absent, blank or unparseable stored value gives a copy of the product default, or the empty list when the product has none |
| Seqs.IndexOf | src/vs/workbench/contrib/url/common/trustedDomains.ts:50 | the result is -1 exactly when the value is absent; otherwise it is the position of the first occurrence |
| TrustedDomains.ToggleLabelFor | src/vs/workbench/contrib/url/common/trustedDomains.ts:49-58 | the wording is "trust all" exactly when the list holds no wildcard |
| TrustedDomainsProperties.LabelPredictsToggle | src/vs/workbench/contrib/url/common/trustedDomains.ts:49-58 | the "trust all" wording is shown exactly when the toggle will write a list holding the wildcard |
| Seqs.Without | src/vs/workbench/contrib/url/common/trustedDomains.ts:102 | filtering removes every copy of the value and keeps every other element with its multiplicity |
| Seqs.WithoutIsSubsequence | src/vs/workbench/contrib/url/common/trustedDomains.ts:102 | the elements filtering keeps stay in their original order |
| TrustedDomains.ToggleWildcard | src/vs/workbench/contrib/url/common/trustedDomains.ts:92-106 | with no wildcard, the written list is the original followed by one wildcard; otherwise it has no wildcard; every other entry keeps its multiplicity; the result holds exactly one wildcard or none |
| TrustedDomains.ToggleAddsOnlyWildcard | src/vs/workbench/contrib/url/common/trustedDomains.ts:92-106 | every entry of the toggled list was in the original list or is the wildcard |
| TrustedDomains.ToggleKeepsOrder | src/vs/workbench/contrib/url/common/trustedDomains.ts:92-106 | the toggled list keeps the other entries in their order: it contains the filtered list as a subsequence and is itself a subsequence of the list with a wildcard appended |
| TrustedDomainsProperties.ToggleTwiceRestores | src/vs/workbench/contrib/url/common/trustedDomains.ts:92-106 | toggling twice from a list without the wildcard gives back exactly that list |
| TrustedDomainsProperties.ToggleTwicePermutes | src/vs/workbench/contrib/url/common/trustedDomains.ts:92-106 | with exactly one wildcard, toggling twice keeps the same entries with the same multiplicities and moves the wildcard to the end |
| TrustedDomainsProperties.ToggleTwiceWildcardLast | src/vs/workbench/contrib/url/common/trustedDomains.ts:92-106 | a list whose only wildcard is last is restored by toggling twice |
| TrustedDomainsProperties.ToggleTwiceRestoresOnlyIfLast | src/vs/workbench/contrib/url/common/trustedDomains.ts:92-106 | conversely, a list with exactly one wildcard that toggling twice gives back has that wildcard last |
| TrustedDomainsProperties.TogglesEven | src/vs/workbench/contrib/url/common/trustedDomains.ts:92-106 | from a list without the wildcard, any even number of toggles gives the list back |
| TrustedDomainsProperties.TogglesOdd | src/vs/workbench/contrib/url/common/trustedDomains.ts:92-106 | from a list without the wildcard, any odd number of toggles gives the list with one wildcard appended |
| TrustedDomainsProperties.TogglesAtMostOneWildcard | src/vs/workbench/contrib/url/common/trustedDomains.ts:92-106 | after one or more toggles the list holds at most one wildcard, whatever it held before |
| TrustedDomainsProperties.ToggleTwiceThroughStorage | src/vs/workbench/contrib/url/common/trustedDomains.ts:33-106 | two runs that each pick the toggle entry leave storage holding the list the first run started from, when it had no wildcard |
| TrustedDomains.ValidateInput | src/vs/workbench/contrib/url/common/trustedDomains.ts:112-118 | the validator returns the text exactly when it starts with `http://` or `https://`, and `undefined` otherwise |
| TrustedDomains.AddDomain | src/vs/workbench/contrib/url/common/trustedDomains.ts:120-126 | the entered text is appended: the length grows by one, the old list is an unchanged prefix, and the last entry is the text |
| TrustedDomainsProperties.AddAppendsEnteredText | src/vs/workbench/contrib/url/common/trustedDomains.ts:108-126 | Add writes the list with the entered text appended, whatever `ValidateInput` returns for that text |
| TrustedDomains.Offered | src/vs/workbench/contrib/url/common/trustedDomains.ts:134-143 | the multi-select items are as many as the non-wildcard entries; each is pre-checked, labelled with its own id, not the wildcard, and taken from the list; their ids are the non-wildcard entries in order |
| TrustedDomains.OfferedCoversDomains | src/vs/workbench/contrib/url/common/trustedDomains.ts:134-143 | every entry other than the wildcard is offered |
| Seqs.KeptPositions | src/vs/workbench/contrib/url/common/trustedDomains.ts:145 | the positions left checked, strictly increasing, each below the list length and not unticked, and every such position among them |
| Seqs.Select | src/vs/workbench/contrib/url/common/trustedDomains.ts:145 | the items that come out are exactly the items at the positions left checked, one per position, in order; with nothing unticked, all items come out |
| Seqs.SelectSubMultiset | src/vs/workbench/contrib/url/common/trustedDomains.ts:145 | no item comes out more often than it occurs in the list |
| Seqs.SelectMembership | src/vs/workbench/contrib/url/common/trustedDomains.ts:145 | an item comes out if and only if some position holding it was left checked |
| Seqs.SelectKeepsChecked | src/vs/workbench/contrib/url/common/trustedDomains.ts:145 | every item at a position left checked comes out |
| Seqs.SelectLeavesOutDropped | src/vs/workbench/contrib/url/common/trustedDomains.ts:145 | an unticked item that no other position repeats does not come out |
| Seqs.SelectIsSubsequence | src/vs/workbench/contrib/url/common/trustedDomains.ts:145 | the items left checked come out in their original order |
| TrustedDomains.Ids | src/vs/workbench/contrib/url/common/trustedDomains.ts:146 | the ids are taken item by item, in order |
| TrustedDomains.IdsOfSelect | src/vs/workbench/contrib/url/common/trustedDomains.ts:145-146 | taking the ids of the checked items equals selecting among the ids |
| TrustedDomains.OfferedIdsOfSelect | src/vs/workbench/contrib/url/common/trustedDomains.ts:134-147 | the ids of the items left checked are the non-wildcard entries at the positions left checked; none is the wildcard and all come from the list |
| TrustedDomains.ConfigureDomains | src/vs/workbench/contrib/url/common/trustedDomains.ts:129-149 | a dismissed list writes nothing; otherwise the written list is exactly the non-wildcard entries at the positions left checked, in order: it holds no wildcard, takes every entry from the original list, contains every entry left checked and only entries at positions left checked, and equals all non-wildcard entries when nothing was unticked |
| TrustedDomainsProperties.ConfigureDropsUnchecked | src/vs/workbench/contrib/url/common/trustedDomains.ts:134-147 | an unticked entry that appears nowhere else among the offered entries is not written |
| TrustedDomains.ConfigureKeepsOrder | src/vs/workbench/contrib/url/common/trustedDomains.ts:134-147 | the written list is a subsequence of the non-wildcard entries, and so of the original list |
| TrustedDomainsProperties.ConfigureUncheckedNothingIsUntrust | src/vs/workbench/contrib/url/common/trustedDomains.ts:134-147 | confirming Configure without unticking anything writes the same list as "Open all links with prompt" |
| TrustedDomainsProperties.ConfigureStable | src/vs/workbench/contrib/url/common/trustedDomains.ts:134-147 | a list written by Configure is offered back whole, and confirming it unchanged writes it again |
| TrustedDomains.Transition | src/vs/workbench/contrib/url/common/trustedDomains.ts:73-88 | nothing is written exactly on cancel, on a dismissed Configure list, or on Reset without a product default; each choice dispatches to its action; Reset writes the product default; no action other than Reset writes an entry that was not in the list, except the wildcard and the added text |
| TrustedDomains.Handle | src/vs/workbench/contrib/url/common/trustedDomains.ts:33-89 | cancelling, dismissing the Configure list, or resetting without a product default leaves storage as it was; every other choice stores a written list, even over absent, blank or unparseable storage; any change to storage is a written list |
| TrustedDomainsProperties.HandleReadsBack | src/vs/workbench/contrib/url/common/trustedDomains.ts:38-47 | the next run starts from exactly the list this run wrote |
| TrustedDomainsProperties.ResetRestoresDefault | src/vs/workbench/contrib/url/common/trustedDomains.ts:151-155 | with a product default, Reset stores exactly that default, whatever was stored before, and the next run starts from it |
| Seqs.WithoutIsSelect | src/vs/workbench/contrib/url/common/trustedDomains.ts:135 | filtering out a value is the same as selecting every position except those holding it |
| TrustedDomainsScenarios.AddAppends | src/vs/workbench/contrib/url/common/trustedDomains.ts:120-126 | adding `https://example.com` to `["https://a.com"]` stores both, in that order |
| TrustedDomainsScenarios.AddStoresSchemelessText | src/vs/workbench/contrib/url/common/trustedDomains.ts:112-126 | `ValidateInput` returns `undefined` for `a.com`, and the run stores `a.com` as entered |
| TrustedDomainsScenarios.ToggleTwiceCollapsesWildcards | src/vs/workbench/contrib/url/common/trustedDomains.ts:92-106 | `["*", "https://a.com", "*"]` toggled twice becomes `["https://a.com", "*"]`: two wildcards collapse into one |
| TrustedDomainsScenarios.AddDuplicatesWildcard | src/vs/workbench/contrib/url/common/trustedDomains.ts:120-126 | adding `*` to `["*"]` stores two wildcards |
| TrustedDomainsScenarios.ConfigureOffersDomainsOnly | src/vs/workbench/contrib/url/common/trustedDomains.ts:134-143 | on `["https://a.com", "https://b.com", "*"]` only the two domains are offered, both pre-checked |
| TrustedDomainsScenarios.ConfigureDropsWildcard | src/vs/workbench/contrib/url/common/trustedDomains.ts:134-147 | unticking the second of them writes `["https://a.com"]`, without the wildcard |
| TrustedDomainsScenarios.ConfigureRunDropsWildcard | src/vs/workbench/contrib/url/common/trustedDomains.ts:73-89 | that run leaves storage holding `["https://a.com"]` only |
| TrustedDomainsScenarios.ResetWritesDefault | src/vs/workbench/contrib/url/common/trustedDomains.ts:151-155 | Reset overwrites a stored list with the product default |
| TrustedDomainsScenarios.CorruptStorageReadsDefault | src/vs/workbench/contrib/url/common/trustedDomains.ts:42-47 | unparseable stored text is read as the product default |
| TrustedDomainsScenarios.StoredEmptyListIsKept | src/vs/workbench/contrib/url/common/trustedDomains.ts:44-45 | a stored empty array is used, not replaced by the product default |

## Left out

- Dismissing the Add input box: the source then appends `undefined`, which
  `JSON.stringify` writes as `null`. A list of strings cannot hold it.
- The meaning of the validator's return value: the quick-input service decides
  how a returned text or `undefined` affects accepting the input box, and that
  service is not part of this model. `Add(entry)` carries the text the input
  box returned.
- Stored JSON that is not a string array. A number, object, boolean or `null`
  makes the `indexOf` call at line 50, which is outside the `try`, throw: the
  run stops before the menu and writes nothing. A JSON string or an array
  holding non-strings goes on. The model's `Parsed` carries only string lists.
- `TrustedDomains.Persist`: the JSON text itself is not modelled, only that
  it is non-blank and parses back to the list written.
- The storage key, the global storage scope, the localized menu texts, the
  quick-input widgets, promises and `async`/`.then` sequencing: these are
  foreign calls and UI. The user's answers are the `Choice` parameter.
- Concurrent runs racing on storage (last writer wins): each run is modelled
  alone.
- `src/vs/workbench/contrib/customEditor/browser/extensionPoint.ts` and
  `src/vs/workbench/contrib/customEditor/browser/webviewEditor.contribution.ts`:
  schema declarations and registrations with host registries, with no
  behaviour of their own.
