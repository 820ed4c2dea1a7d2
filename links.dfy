/**
 * Link collection shared by the publisher and podcast adapters: the `href`
 * of every selected anchor, in document order, is kept when it is present,
 * carries the adapter's path marker and is not already in the list as
 * written, and is stored with the site origin prepended when relative.
 */
module Links {
  import opened Wrappers
  import opened Text

  /**
   * `origin` is prepended to relative hrefs; `marker` is the path fragment a
   * publisher link must contain (podcast adapters have none);
   * `keepProtocolRelative` says that `//host/...` counts as absolute.
   */
  datatype LinkRule = LinkRule(origin: string, marker: Option<string>, keepProtocolRelative: bool)

  /** The href is present, non-empty and carries the marker. */
  predicate Eligible(rule: LinkRule, href: Option<string>) {
    Truthy(href) && (rule.marker.Some? ==> Contains(href.value, rule.marker.value))
  }

  /** The href is stored as written. */
  predicate KeptVerbatim(rule: LinkRule, h: string) {
    StartsWith(h, "http") || (rule.keepProtocolRelative && StartsWith(h, "//"))
  }

  /** The link stored for an href. */
  function Resolve(rule: LinkRule, h: string): string {
    if KeptVerbatim(rule, h) then h else rule.origin + h
  }

  /** The links collected from `hrefs`; the duplicate test compares the raw href with the stored links. */
  function Collected(rule: LinkRule, hrefs: seq<Option<string>>): seq<string>
  {
    if hrefs == [] then []
    else
      var links := Collected(rule, hrefs[..|hrefs| - 1]);
      var href := hrefs[|hrefs| - 1];
      if Eligible(rule, href) && href.value !in links then links + [Resolve(rule, href.value)] else links
  }

  /** The `.each` callback over the selected anchors, pushing into `links`. */
  method CollectLinks(rule: LinkRule, hrefs: seq<Option<string>>) returns (links: seq<string>)
    ensures links == Collected(rule, hrefs)
  {
    links := [];
    for i := 0 to |hrefs|
      invariant links == Collected(rule, hrefs[..i])
    {
      assert hrefs[..i + 1][..i] == hrefs[..i];
      var href := hrefs[i];
      if Truthy(href) && (rule.marker.Some? ==> Contains(href.value, rule.marker.value)) && href.value !in links {
        var h := href.value;
        if !KeptVerbatim(rule, h) {
          h := rule.origin + h;
        }
        links := links + [h];
      }
    }
    assert hrefs[..|hrefs|] == hrefs;
  }

  /** At most one link per anchor. */
  lemma {:induction false} CollectedLength(rule: LinkRule, hrefs: seq<Option<string>>)
    ensures |Collected(rule, hrefs)| <= |hrefs|
  {
    if hrefs != [] {
      CollectedLength(rule, hrefs[..|hrefs| - 1]);
    }
  }

  /** With an origin that starts with `http`, every stored link counts as absolute. */
  lemma {:induction false} CollectedVerbatim(rule: LinkRule, hrefs: seq<Option<string>>)
    requires StartsWith(rule.origin, "http")
    ensures forall l :: l in Collected(rule, hrefs) ==> KeptVerbatim(rule, l)
  {
    if hrefs != [] {
      CollectedVerbatim(rule, hrefs[..|hrefs| - 1]);
      var href := hrefs[|hrefs| - 1];
      if Truthy(href) {
        var h := href.value;
        if !KeptVerbatim(rule, h) {
          assert (rule.origin + h)[..4] == rule.origin[..4];
        }
      }
    }
  }

  /** A relative href is never in the list as written, so it is stored again each time it occurs. */
  lemma RelativeAlwaysAppended(rule: LinkRule, hrefs: seq<Option<string>>, h: string)
    requires StartsWith(rule.origin, "http")
    requires Eligible(rule, Some(h)) && !KeptVerbatim(rule, h)
    ensures Collected(rule, hrefs + [Some(h)]) == Collected(rule, hrefs) + [rule.origin + h]
  {
    assert (hrefs + [Some(h)])[..|hrefs|] == hrefs;
    CollectedVerbatim(rule, hrefs);
  }

  /** A link is stored iff some eligible href resolves to it. */
  lemma {:induction false} CollectedMember(rule: LinkRule, hrefs: seq<Option<string>>, l: string)
    requires StartsWith(rule.origin, "http")
    ensures l in Collected(rule, hrefs) <==>
      exists i :: 0 <= i < |hrefs| && Eligible(rule, hrefs[i]) && Resolve(rule, hrefs[i].value) == l
  {
    if hrefs != [] {
      var front := hrefs[..|hrefs| - 1];
      var href := hrefs[|hrefs| - 1];
      CollectedMember(rule, front, l);
      CollectedVerbatim(rule, front);
      if l in Collected(rule, front) {
        var i :| 0 <= i < |front| && Eligible(rule, front[i]) && Resolve(rule, front[i].value) == l;
        assert hrefs[i] == front[i];
      }
      if exists i :: 0 <= i < |hrefs| && Eligible(rule, hrefs[i]) && Resolve(rule, hrefs[i].value) == l {
        var i :| 0 <= i < |hrefs| && Eligible(rule, hrefs[i]) && Resolve(rule, hrefs[i].value) == l;
        if i < |front| {
          assert front[i] == hrefs[i];
        }
      }
    }
  }

  /** When every eligible href is absolute, no link is stored twice. */
  lemma {:induction false} AbsoluteNoDuplicates(rule: LinkRule, hrefs: seq<Option<string>>)
    requires forall i :: 0 <= i < |hrefs| && Eligible(rule, hrefs[i]) ==> KeptVerbatim(rule, hrefs[i].value)
    ensures NoDuplicates(Collected(rule, hrefs))
  {
    if hrefs != [] {
      AbsoluteNoDuplicates(rule, hrefs[..|hrefs| - 1]);
    }
  }
}
