/**
 * What a session's access admits, spelled out: a domain stands for itself and its subdomains, label by label, and for
 * nothing that merely ends in the same letters.
 */
module SessionAdmission {
  import opened Bytes
  import opened Results
  import opened SessionAccess

  const DOT: Unit := 0x2E

  /** The host name is the domain or one of its subdomains: its labels end in the domain's labels. */
  predicate Under(hostname: Text, domain: Text) {
    var all, last := Labels(hostname), Labels(domain);
    |last| <= |all| && all[|all| - |last|..] == last
  }

  predicate Web(url: Url) { url.scheme.Http? || url.scheme.Https? }

  // ----- labels and text

  function Joined(labels: seq<Text>): Text
    requires labels != []
  {
    if |labels| == 1 then labels[0]
    else Joined(labels[..|labels| - 1]) + [DOT] + labels[|labels| - 1]
  }

  lemma {:induction false} JoinedLabels(t: Text)
    ensures Joined(Labels(t)) == t
  {
    if t != [] {
      var front, last := t[..|t| - 1], t[|t| - 1];
      var r := Labels(front);
      JoinedLabels(front);
      if last == DOT {
        assert Labels(t)[..|r|] == r;
      } else {
        var all := Labels(t);
        assert |all| == |r| && all[..|r| - 1] == r[..|r| - 1] && all[|r| - 1] == r[|r| - 1] + [last];
      }
      assert t == front + [last];
    }
  }

  lemma {:induction false} JoinedApart(a: seq<Text>, b: seq<Text>)
    requires a != [] && b != []
    ensures Joined(a + b) == Joined(a) + [DOT] + Joined(b)
  {
    var all := a + b;
    assert all[|all| - 1] == b[|b| - 1];
    if |b| == 1 {
      assert all[..|all| - 1] == a;
    } else {
      assert all[..|all| - 1] == a + b[..|b| - 1];
      JoinedApart(a, b[..|b| - 1]);
    }
  }

  /** The labels after one more unit. */
  function Extended(labels: seq<Text>, u: Unit): seq<Text>
    requires labels != []
  {
    if u == DOT then labels + [[]] else labels[..|labels| - 1] + [labels[|labels| - 1] + [u]]
  }

  lemma LabelsExtended(t: Text, u: Unit)
    ensures Labels(t + [u]) == Extended(Labels(t), u)
  {
    var more := t + [u];
    assert more[..|more| - 1] == t;
  }

  lemma ExtendedApart(a: seq<Text>, b: seq<Text>, u: Unit)
    requires b != []
    ensures Extended(a + b, u) == a + Extended(b, u)
  {
    assert (a + b)[..|a + b| - 1] == a + b[..|b| - 1];
  }

  lemma LabelsApartStep(p: Text, front: Text, last: Unit)
    requires Labels(p + [DOT] + front) == Labels(p) + Labels(front)
    ensures Labels(p + [DOT] + (front + [last])) == Labels(p) + Labels(front + [last])
  {
    var head := p + [DOT];
    Assoc(head, front, [last]);
    LabelsExtended(head + front, last);
    LabelsExtended(front, last);
    ExtendedApart(Labels(p), Labels(front), last);
  }

  /** Splitting at a dot splits the labels. */
  lemma {:induction false} LabelsApart(p: Text, d: Text)
    ensures Labels(p + [DOT] + d) == Labels(p) + Labels(d)
  {
    if d == [] {
      LabelsExtended(p, DOT);
      assert p + [DOT] + d == p + [DOT];
    } else {
      LabelsApart(p, d[..|d| - 1]);
      LabelsApartStep(p, d[..|d| - 1], d[|d| - 1]);
      assert d == d[..|d| - 1] + [d[|d| - 1]];
    }
  }

  lemma EndsUnder(hostname: Text, domain: Text)
    requires EndsWith(hostname, [DOT] + domain)
    ensures Under(hostname, domain)
  {
    var p := hostname[..|hostname| - |[DOT] + domain|];
    assert hostname == p + [DOT] + domain;
    LabelsApart(p, domain);
    var first, last := Labels(p), Labels(domain);
    assert (first + last)[|first|..] == last;
  }

  lemma EndsWithTail(p: Text, suffix: Text)
    ensures EndsWith(p + suffix, suffix)
  {
    assert (p + suffix)[|p|..] == suffix;
  }

  lemma JoinedTail(first: seq<Text>, last: seq<Text>)
    requires first != [] && last != []
    ensures EndsWith(Joined(first + last), [DOT] + Joined(last))
  {
    JoinedApart(first, last);
    Assoc(Joined(first), [DOT], Joined(last));
    EndsWithTail(Joined(first), [DOT] + Joined(last));
  }

  lemma UnderEnds(hostname: Text, domain: Text)
    requires Under(hostname, domain) && hostname != domain
    ensures EndsWith(hostname, [DOT] + domain)
  {
    var all, last := Labels(hostname), Labels(domain);
    var first := all[..|all| - |last|];
    assert all == first + last;
    JoinedLabels(hostname);
    JoinedLabels(domain);
    assert first == [] ==> all == last;
    JoinedTail(first, last);
  }

  /** Ending in a dot and the domain is having the domain's labels last. */
  lemma UnderIff(hostname: Text, domain: Text)
    ensures Under(hostname, domain) <==> hostname == domain || EndsWith(hostname, [DOT] + domain)
  {
    if EndsWith(hostname, [DOT] + domain) {
      EndsUnder(hostname, domain);
    }
    if Under(hostname, domain) && hostname != domain {
      UnderEnds(hostname, domain);
    }
  }

  // ----- what each level admits

  /**
   * Domain access admits exactly the http and https URLs whose host name is under a listed domain; full access every
   * http and https URL and about:blank; selected tabs no URL.
   */
  lemma AdmittedUrls(a: Access, url: Option<Url>)
    ensures SessionAllowsUrl(a, url) <==>
      && url.Some? && !a.level.SelectedTabs?
      && (a.level.Full? ==> Web(url.value) || url.value.aboutBlank)
      && (a.level.Domains? ==>
            Web(url.value) && exists d :: d in a.domains && Under(url.value.hostname, d))
  {
    if url.Some? && a.level.Domains? {
      var hostname := url.value.hostname;
      forall d ensures Under(hostname, d) <==> hostname == d || EndsWith(hostname, [DOT] + d) {
        UnderIff(hostname, d);
      }
      if exists d :: d in a.domains && Under(hostname, d) {
        var d :| d in a.domains && Under(hostname, d);
        var i :| 0 <= i < |a.domains| && a.domains[i] == d;
        assert hostname == a.domains[i] || EndsWith(hostname, [0x2E] + a.domains[i]);
      }
      if SessionAllowsUrl(a, url) {
        var i :| 0 <= i < |a.domains| && (hostname == a.domains[i] || EndsWith(hostname, [0x2E] + a.domains[i]));
        assert a.domains[i] in a.domains && Under(hostname, a.domains[i]);
      }
    }
  }

  /** A tab can be adopted exactly when it is no session page and is listed, or its URL admitted, or access is full. */
  lemma AdoptedTabs(a: Access, tab: Tab)
    ensures SessionCanAdoptTab(a, tab) <==>
      && !tab.sessionPage
      && (|| a.level.Full? || tab.id in a.tabIds
          || (&& a.level.Domains? && tab.url.Some? && Web(tab.url.value)
              && exists d :: d in a.domains && Under(tab.url.value.hostname, d)))
  {
    AdmittedUrls(a, tab.url);
  }

  /** A host that one domain alone admits has that domain's labels last: it lies within the domain's own subdomains. */
  lemma OneDomainOnly(domain: Text, url: Url)
    requires SessionAllowsUrl(Access(Domains, [], [domain]), Some(url))
    ensures Web(url) && Under(url.hostname, domain)
    ensures url.hostname == domain || exists p: Text :: url.hostname == p + [DOT] + domain
  {
    AdmittedUrls(Access(Domains, [], [domain]), Some(url));
    UnderIff(url.hostname, domain);
    if url.hostname != domain {
      var suffix := [DOT] + domain;
      var p := url.hostname[..|url.hostname| - |suffix|];
      assert url.hostname == p + [DOT] + domain;
    }
  }

  lemma OneDomain(domain: Text, scheme: Scheme, hostname: Text)
    requires !scheme.OtherScheme?
    ensures SessionAllowsUrl(Access(Domains, [], [domain]), Some(Url(scheme, false, hostname))) <==>
      hostname == domain || EndsWith(hostname, [DOT] + domain)
  {
    assert [domain][0] == domain;
  }

  /** Access to example.com admits www.example.com and refuses evilexample.com. */
  lemma LookalikeRefused(scheme: Scheme)
    requires !scheme.OtherScheme?
    ensures var a := Access(Domains, [], [Ascii("example.com")]);
      && SessionAllowsUrl(a, Some(Url(scheme, false, Ascii("example.com"))))
      && SessionAllowsUrl(a, Some(Url(scheme, false, Ascii("www.example.com"))))
      && !SessionAllowsUrl(a, Some(Url(scheme, false, Ascii("evilexample.com"))))
  {
    var domain, sub, evil := Ascii("example.com"), Ascii("www.example.com"), Ascii("evilexample.com");
    OneDomain(domain, scheme, domain);
    OneDomain(domain, scheme, sub);
    OneDomain(domain, scheme, evil);
    assert sub[3..] == [DOT] + domain;
    assert evil[3..][0] == 0x6C && ([DOT] + domain)[0] == DOT;
  }
}
