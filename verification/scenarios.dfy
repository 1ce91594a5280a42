/** Concrete runs of the trusted-domains command. */
module TrustedDomainsScenarios {
  import opened Wrappers
  import opened Seqs
  import opened TrustedDomains

  /** Adding to `["https://a.com"]` appends after the existing entry. */
  lemma AddAppends()
    ensures Handle(None, Parsed(["https://a.com"]), Add("https://example.com"))
            == Parsed(["https://a.com", "https://example.com"])
  {
  }

  /** `ValidateInput` returns `undefined` for `a.com`, which has no http(s)
      scheme; the run stores the text as entered. */
  lemma AddStoresSchemelessText()
    ensures ValidateInput("a.com") == None
    ensures Handle(None, Parsed(["https://a.com"]), Add("a.com")) == Parsed(["https://a.com", "a.com"])
  {
  }

  /** Two wildcards do not come back after two toggles: the first toggle
      removes both, the second appends one. */
  lemma ToggleTwiceCollapsesWildcards()
    ensures ToggleWildcard(ToggleWildcard(["*", "https://a.com", "*"])) == ["https://a.com", "*"]
  {
    var l := ["*", "https://a.com", "*"];
    assert l[..2] == ["*", "https://a.com"];
    assert l[..2][..1] == ["*"];
    assert Without(l[..2][..1], Wildcard) == [];
    assert Without(l[..2], Wildcard) == ["https://a.com"];
    assert Without(l, Wildcard) == ["https://a.com"];
  }

  /** Add does not look for duplicates: adding `*` to `["*"]` stores two
      wildcards. */
  lemma AddDuplicatesWildcard()
    ensures Handle(None, Parsed(["*"]), Add("*")) == Parsed(["*", "*"])
  {
  }

  /** On `["https://a.com", "https://b.com", "*"]` only the two domains are
      offered, both checked. */
  lemma ConfigureOffersDomainsOnly()
    ensures Offered(["https://a.com", "https://b.com", "*"])
            == [PickItem("https://a.com", "https://a.com", true), PickItem("https://b.com", "https://b.com", true)]
  {
    var l := ["https://a.com", "https://b.com", "*"];
    assert l[..2] == ["https://a.com", "https://b.com"];
    assert l[..2][..1] == ["https://a.com"];
    assert Without(l[..2][..1], Wildcard) == ["https://a.com"];
    assert Without(l[..2], Wildcard) == ["https://a.com", "https://b.com"];
    assert Without(l, Wildcard) == ["https://a.com", "https://b.com"];
  }

  /** Unchecking `https://b.com` there writes `["https://a.com"]`: the
      wildcard, never offered, is dropped. */
  lemma ConfigureDropsWildcard()
    ensures ConfigureDomains(["https://a.com", "https://b.com", "*"], Some({1})) == Some(["https://a.com"])
  {
    var l := ["https://a.com", "https://b.com", "*"];
    var a := PickItem("https://a.com", "https://a.com", true);
    var b := PickItem("https://b.com", "https://b.com", true);
    ConfigureOffersDomainsOnly();
    SelectSecondDropped(a, b);
    assert Select(Offered(l), {1}) == [a];
    assert Ids([a]) == ["https://a.com"];
  }

  lemma SelectSecondDropped(a: PickItem, b: PickItem)
    ensures Select([a, b], {1}) == [a]
  {
    assert [a, b][..1] == [a];
    assert Select([a], {1}) == [a];
  }

  /** ... so that run leaves storage without the wildcard it held. */
  lemma ConfigureRunDropsWildcard()
    ensures Handle(None, Parsed(["https://a.com", "https://b.com", "*"]), Configure(Some({1})))
            == Parsed(["https://a.com"])
  {
    var l := ["https://a.com", "https://b.com", "*"];
    assert StartingList(None, Parsed(l)) == l;
    ConfigureDropsWildcard();
    assert Transition(l, Configure(Some({1})), None) == Some(["https://a.com"]);
    assert Handle(None, Parsed(l), Configure(Some({1}))) == Persist(["https://a.com"]);
  }

  /** Reset writes the product default over whatever was stored. */
  lemma ResetWritesDefault()
    ensures Handle(Some(["https://trusted.example"]), Parsed(["https://x.com", "*"]), Reset)
            == Parsed(["https://trusted.example"])
  {
  }

  /** A stored text that does not parse is read as the product default. */
  lemma CorruptStorageReadsDefault()
    ensures StartingList(Some(["https://d.com"]), Unparseable) == ["https://d.com"]
    ensures ToggleLabelFor(StartingList(Some(["https://d.com"]), Unparseable)) == TrustAll
  {
  }

  /** A stored empty array is used as it is, not replaced by the default. */
  lemma StoredEmptyListIsKept()
    ensures StartingList(Some(["https://d.com"]), Parsed([])) == []
  {
  }
}
