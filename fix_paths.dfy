/**
 * The asset path resolver (assets/js/fix-paths.js): on the GitHub Pages
 * project host it prefixes every root-relative `href`, `src` and preview-image
 * `content` value with the repository's base path, once over the whole page
 * and then again for anchors and images inserted later.
 */
module FixPaths {
  import opened Strings
  import opened Browser

  const GitHubPagesHost := "alsania-dev.github.io"
  const RepositoryBase := "/alsania-io-site"
  const FileProtocol := "file:"

  /** The base path is the repository's sub-path on the GitHub Pages host and empty everywhere else. */
  function BasePath(hostname: string): (b: string)
    ensures b == RepositoryBase <==> hostname == GitHubPagesHost
    ensures b == "" <==> hostname != GitHubPagesHost
  {
    if hostname == GitHubPagesHost then RepositoryBase else ""
  }

  // ---------------------------------------------------------------------------
  // The scheme test `/^\/[a-z0-9]+:/i`

  predicate AllAlnum(s: string) {
    forall i :: 0 <= i < |s| ==> IsAsciiAlnum(s[i])
  }

  /** `s` begins with one or more ASCII letters or digits followed by a colon. */
  predicate AlnumRunThenColon(s: string)
    decreases |s|
  {
    |s| >= 2 && IsAsciiAlnum(s[0]) && (s[1] == ':' || AlnumRunThenColon(s[1..]))
  }

  /** `value.match(/^\/[a-z0-9]+:/i)` succeeds: the value is a disguised scheme such as `/http:`. */
  predicate SchemeLike(v: string) {
    |v| >= 1 && v[0] == '/' && AlnumRunThenColon(v[1..])
  }

  /** The same pattern read literally: a slash, a run of letters or digits, a colon at index k. */
  ghost predicate SchemePattern(v: string) {
    exists k :: 2 <= k < |v| && v[k] == ':' && v[0] == '/' && AllAlnum(v[1..k])
  }

  lemma {:induction false} AlnumRunThenColonIff(s: string)
    ensures AlnumRunThenColon(s) <==> exists k :: 1 <= k < |s| && s[k] == ':' && AllAlnum(s[..k])
  {
    if |s| >= 2 && IsAsciiAlnum(s[0]) && s[1] != ':' {
      var t := s[1..];
      AlnumRunThenColonIff(t);
      if AlnumRunThenColon(t) {
        var k' :| 1 <= k' < |t| && t[k'] == ':' && AllAlnum(t[..k']);
        assert s[..k' + 1] == [s[0]] + t[..k'];
        assert s[k' + 1] == ':' && AllAlnum(s[..k' + 1]);
      } else {
        forall k | 1 <= k < |s| && s[k] == ':' ensures !AllAlnum(s[..k]) {
          assert t[k - 1] == ':';
          assert t[..k - 1] == s[..k][1..];
        }
      }
    } else if |s| >= 2 && IsAsciiAlnum(s[0]) {
      assert s[..1] == [s[0]];
      assert AllAlnum(s[..1]);
    } else if |s| >= 2 {
      forall k | 1 <= k < |s| ensures !AllAlnum(s[..k]) {
        assert s[..k][0] == s[0];
      }
    }
  }

  /** The recursive scheme test is the regular expression. */
  lemma SchemeLikeIff(v: string)
    ensures SchemeLike(v) <==> SchemePattern(v)
  {
    if |v| >= 1 && v[0] == '/' {
      var t := v[1..];
      AlnumRunThenColonIff(t);
      if SchemeLike(v) {
        var k :| 1 <= k < |t| && t[k] == ':' && AllAlnum(t[..k]);
        assert v[1..k + 1] == t[..k];
        assert v[k + 1] == ':' && AllAlnum(v[1..k + 1]);
      } else {
        forall k | 2 <= k < |v| && v[k] == ':' ensures !AllAlnum(v[1..k]) {
          assert t[k - 1] == ':';
          assert t[..k - 1] == v[1..k];
        }
      }
    }
  }

  // ---------------------------------------------------------------------------
  // fixAttribute

  /** The condition under which fixAttribute rewrites a value, as written (guard included). */
  predicate ShouldPrefix(base: string, v: string) {
    v != ""
    && StartsWith(v, "/")
    && !StartsWith(v, "//")
    && !StartsWith(v, "/" + base + "/")
    && !SchemeLike(v)
  }

  /** The value fixAttribute leaves in the attribute. */
  function FixValue(base: string, v: string): string {
    if ShouldPrefix(base, v) then base + v else v
  }

  /**
   * The "already prefixed" guard compares with `'/' + basePath + '/'`; since the
   * base path itself begins with a slash, that string begins with `//`, which the
   * guard before it has already excluded: the guard can never fire.
   */
  lemma GuardIsDead(base: string, v: string)
    requires StartsWith(base, "/")
    requires !StartsWith(v, "//")
    ensures !StartsWith(v, "/" + base + "/")
  {
    var g := "/" + base + "/";
    assert g[..2] == "//";
  }

  /**
   * fixAttribute, stated without its guard: for a base path beginning with a slash,
   * a value is rewritten to `base + value` exactly when it begins with one slash
   * (not two) and is not a disguised scheme; otherwise it is left unchanged
   * (in particular when it is empty or does not begin with a slash).
   */
  lemma FixValueExact(base: string, v: string)
    requires StartsWith(base, "/")
    ensures FixValue(base, v)
      == if StartsWith(v, "/") && !StartsWith(v, "//") && !SchemePattern(v) then base + v else v
  {
    SchemeLikeIff(v);
    if !StartsWith(v, "//") {
      GuardIsDead(base, v);
    }
  }

  /** No value that begins with the repository base path is a disguised scheme. */
  lemma UnderBaseNotSchemeLike(w: string)
    requires StartsWith(w, RepositoryBase)
    ensures !SchemePattern(w)
  {
    assert w[..|RepositoryBase|] == RepositoryBase;
    assert w[8] == '-';

  }

  /**
   * A value that already carries the base path is prefixed again: the rewrite is
   * not the no-op on already-prefixed values that its guard was meant to make it.
   */
  lemma AlreadyPrefixedIsPrefixedAgain(v: string)
    requires StartsWith(v, RepositoryBase + "/")
    ensures FixValue(RepositoryBase, v) == RepositoryBase + v
  {
    assert v[..|RepositoryBase|] == (RepositoryBase + "/")[..|RepositoryBase|];
    UnderBaseNotSchemeLike(v);
    assert v[..2] == "/a";
    FixValueExact(RepositoryBase, v);
  }

  /** Hence applying the rewrite twice prefixes twice: it is not idempotent. */
  lemma FixValueNotIdempotent(v: string)
    requires ShouldPrefix(RepositoryBase, v)
    ensures FixValue(RepositoryBase, FixValue(RepositoryBase, v)) == RepositoryBase + RepositoryBase + v
    ensures FixValue(RepositoryBase, FixValue(RepositoryBase, v)) != FixValue(RepositoryBase, v)
  {
    var w := RepositoryBase + v;
    assert w[..|RepositoryBase|] == RepositoryBase;
    assert w[..2] == "/a";
    UnderBaseNotSchemeLike(w);
    FixValueExact(RepositoryBase, w);
  }

  /**
   * `fixAttribute(element, name)`: rewrites that one attribute's value by FixValue
   * and changes nothing else of the element.
   */
  function FixAttribute(base: string, e: Element, name: string): (r: Element)
    ensures r.tag == e.tag && r.attrs.Keys == e.attrs.Keys
    ensures forall k :: k in e.attrs && k != name ==> r.attrs[k] == e.attrs[k]
    ensures name in e.attrs ==> r.attrs[name] == FixValue(base, e.attrs[name])
  {
    if name in e.attrs && ShouldPrefix(base, e.attrs[name]) then SetAttribute(e, name, base + e.attrs[name]) else e
  }

  // ---------------------------------------------------------------------------
  // Selectors of the initial pass and of the mutation observer

  datatype Selector =
    | AnchorHref      // a[href]
    | StylesheetHref  // link[rel="stylesheet"][href]
    | ScriptSrc       // script[src]
    | ImageSrc        // img[src]
    | IconHref        // link[rel="icon"][href], link[rel="shortcut icon"][href]
    | MetaContent     // meta[content]

  function SelectorAttribute(sel: Selector): string {
    match sel
    case AnchorHref => "href"
    case StylesheetHref => "href"
    case IconHref => "href"
    case ScriptSrc => "src"
    case ImageSrc => "src"
    case MetaContent => "content"
  }

  predicate RelIs(e: Element, v: string) {
    "rel" in e.attrs && e.attrs["rel"] == v
  }

  /** `element.matches(selector)` for the selectors the resolver uses. */
  predicate Matches(sel: Selector, e: Element) {
    SelectorAttribute(sel) in e.attrs &&
    match sel
    case AnchorHref => e.tag == "a"
    case StylesheetHref => e.tag == "link" && RelIs(e, "stylesheet")
    case ScriptSrc => e.tag == "script"
    case ImageSrc => e.tag == "img"
    case IconHref => e.tag == "link" && (RelIs(e, "icon") || RelIs(e, "shortcut icon"))
    case MetaContent => e.tag == "meta"
  }

  /** `meta.getAttribute('property') || meta.getAttribute('name')`, null read as empty. */
  function PreviewKey(e: Element): string {
    if Truthy(GetAttribute(e, "property")) then e.attrs["property"]
    else if "name" in e.attrs then e.attrs["name"]
    else ""
  }

  /** The meta rule: one leading slash, and a property or name mentioning an image or logo. */
  predicate MetaRewrites(e: Element) {
    "content" in e.attrs
    && e.attrs["content"] != ""
    && StartsWith(e.attrs["content"], "/")
    && !StartsWith(e.attrs["content"], "//")
    && (Contains(PreviewKey(e), "image") || Contains(PreviewKey(e), "logo"))
  }

  /** The meta-image rewrite: content becomes base + content under MetaRewrites, and nothing else changes. */
  function FixMeta(base: string, e: Element): (r: Element)
    ensures r.tag == e.tag && r.attrs.Keys == e.attrs.Keys
    ensures forall k :: k in e.attrs && k != "content" ==> r.attrs[k] == e.attrs[k]
    ensures "content" in e.attrs ==>
      r.attrs["content"] == if MetaRewrites(e) then base + e.attrs["content"] else e.attrs["content"]
  {
    if MetaRewrites(e) then SetAttribute(e, "content", base + e.attrs["content"]) else e
  }

  /** The meta rule has no scheme test and no guard: `/https:x` in og:image is prefixed. */
  lemma MetaHasNoSchemeTest(base: string)
    ensures var e := Element("meta", map["property" := "og:image", "content" := "/https:x"]);
      FixMeta(base, e).attrs["content"] == base + "/https:x"
      && FixValue(base, "/https:x") == "/https:x"
  {
    var e := Element("meta", map["property" := "og:image", "content" := "/https:x"]);
    assert PreviewKey(e) == "og:image";
    assert OccursAt("og:image", "image", 3);
    var v := "/https:x";
    assert v[..1] == "/" && v[..2][1] == 'h';
    assert MetaRewrites(e);
    assert v[6] == ':' && AllAlnum(v[1..6]);
    SchemeLikeIff(v);
  }

  /** One selector's effect on one element. */
  function Step(base: string, sel: Selector, e: Element): Element {
    if !Matches(sel, e) then e
    else if sel == MetaContent then FixMeta(base, e)
    else FixAttribute(base, e, SelectorAttribute(sel))
  }

  /** Every step keeps the tag, the attribute names and `rel`, so it keeps which selectors match. */
  lemma StepKeepsShape(base: string, sel: Selector, e: Element)
    ensures Step(base, sel, e).tag == e.tag
    ensures Step(base, sel, e).attrs.Keys == e.attrs.Keys
    ensures forall s :: Matches(s, Step(base, sel, e)) <==> Matches(s, e)
  {
    var r := Step(base, sel, e);
    assert "rel" in e.attrs ==> r.attrs["rel"] == e.attrs["rel"];
  }

  /** `document.querySelectorAll(selector).forEach(...)` over the page's elements. */
  function Pass(base: string, sel: Selector, es: seq<Element>): (r: seq<Element>)
    ensures |r| == |es|
    ensures forall i :: 0 <= i < |es| ==> r[i] == Step(base, sel, es[i])
  {
    seq(|es|, i requires 0 <= i < |es| => Step(base, sel, es[i]))
  }

  /** `fixAllPaths`: anchors, stylesheets, scripts, images, icons, then meta images. */
  function FixAllPaths(base: string, es: seq<Element>): seq<Element> {
    Pass(base, MetaContent, Pass(base, IconHref, Pass(base, ImageSrc,
      Pass(base, ScriptSrc, Pass(base, StylesheetHref, Pass(base, AnchorHref, es))))))
  }

  /** The single rewrite each kind of element receives from the initial pass. */
  function InitialFix(base: string, e: Element): Element {
    if Matches(AnchorHref, e) || Matches(StylesheetHref, e) || Matches(IconHref, e) then FixAttribute(base, e, "href")
    else if Matches(ScriptSrc, e) || Matches(ImageSrc, e) then FixAttribute(base, e, "src")
    else if Matches(MetaContent, e) then FixMeta(base, e)
    else e
  }

  lemma StepsOnElement(base: string, e: Element)
    ensures Step(base, MetaContent, Step(base, IconHref, Step(base, ImageSrc,
      Step(base, ScriptSrc, Step(base, StylesheetHref, Step(base, AnchorHref, e))))))
      == InitialFix(base, e)
  {
    var e1 := Step(base, AnchorHref, e);
    StepKeepsShape(base, AnchorHref, e);
    var e2 := Step(base, StylesheetHref, e1);
    StepKeepsShape(base, StylesheetHref, e1);
    var e3 := Step(base, ScriptSrc, e2);
    StepKeepsShape(base, ScriptSrc, e2);
    var e4 := Step(base, ImageSrc, e3);
    StepKeepsShape(base, ImageSrc, e3);
    var e5 := Step(base, IconHref, e4);
    StepKeepsShape(base, IconHref, e4);
  }

  /**
   * The selectors of the initial pass pick disjoint sets of elements, so every
   * element is rewritten at most once: by the href rule (anchors, stylesheets,
   * icons), the src rule (scripts, images), the meta rule, or not at all.
   */
  lemma FixAllPathsElementwise(base: string, es: seq<Element>)
    ensures |FixAllPaths(base, es)| == |es|
    ensures forall i :: 0 <= i < |es| ==> FixAllPaths(base, es)[i] == InitialFix(base, es[i])
  {
    forall i | 0 <= i < |es| ensures FixAllPaths(base, es)[i] == InitialFix(base, es[i]) {
      StepsOnElement(base, es[i]);
    }
  }

  // ---------------------------------------------------------------------------
  // fixNewElements: the mutation observer's callback

  /** An added node: an element, by its index in the page, with its descendants' indices (document order). */
  datatype AddedNode = ElementNode(index: nat, descendants: seq<nat>) | OtherNode

  datatype MutationRecord = ChildList(addedNodes: seq<AddedNode>) | OtherRecord

  predicate IndicesBelow(ds: seq<nat>, n: nat) {
    forall j :: 0 <= j < |ds| ==> ds[j] < n
  }

  predicate NodeInBounds(node: AddedNode, n: nat) {
    node.ElementNode? ==> node.index < n && IndicesBelow(node.descendants, n)
  }

  predicate NodesInBounds(nodes: seq<AddedNode>, n: nat) {
    forall k :: 0 <= k < |nodes| ==> NodeInBounds(nodes[k], n)
  }

  /** Mutation records only name nodes of the page. */
  predicate RecordsInBounds(ms: seq<MutationRecord>, n: nat) {
    forall k :: 0 <= k < |ms| ==> (ms[k].ChildList? ==> NodesInBounds(ms[k].addedNodes, n))
  }

  /** `sel`'s rewrite applied `n` times in a row to one element. */
  function Repeat(base: string, sel: Selector, e: Element, n: nat): Element
    decreases n
  {
    if n == 0 then e else Step(base, sel, Repeat(base, sel, e, n - 1))
  }

  lemma {:induction false} RepeatKeepsShape(base: string, sel: Selector, e: Element, n: nat)
    ensures Repeat(base, sel, e, n).tag == e.tag && Repeat(base, sel, e, n).attrs.Keys == e.attrs.Keys
    ensures forall s :: Matches(s, Repeat(base, sel, e, n)) <==> Matches(s, e)
    decreases n
  {
    if n > 0 {
      RepeatKeepsShape(base, sel, e, n - 1);
      StepKeepsShape(base, sel, Repeat(base, sel, e, n - 1));
    }
  }

  lemma {:induction false} RepeatUnmatched(base: string, sel: Selector, e: Element, n: nat)
    requires !Matches(sel, e)
    ensures Repeat(base, sel, e, n) == e
    decreases n
  {
    if n > 0 {
      RepeatUnmatched(base, sel, e, n - 1);
    }
  }

  lemma {:induction false} RepeatAdd(base: string, sel: Selector, e: Element, a: nat, b: nat)
    ensures Repeat(base, sel, Repeat(base, sel, e, a), b) == Repeat(base, sel, e, a + b)
    decreases b
  {
    if b > 0 {
      RepeatAdd(base, sel, e, a, b - 1);
    }
  }

  /**
   * What the observer leaves in an element it reaches `n` times: an anchor's
   * `href` or an image's `src` rewritten `n` times over, any other element as it was.
   */
  function Observed(base: string, e: Element, n: nat): Element {
    if Matches(AnchorHref, e) then Repeat(base, AnchorHref, e, n) else Repeat(base, ImageSrc, e, n)
  }

  /**
   * An element never reached keeps every attribute, and so does one that is
   * neither an anchor nor an image; an anchor or image reached once gets exactly
   * the rewrite the initial pass gives it; one reached twice is rewritten twice.
   */
  lemma ObservedMeaning(base: string, e: Element, n: nat)
    ensures n == 0 ==> Observed(base, e, n) == e
    ensures !Matches(AnchorHref, e) && !Matches(ImageSrc, e) ==> Observed(base, e, n) == e
    ensures n == 1 && (Matches(AnchorHref, e) || Matches(ImageSrc, e)) ==> Observed(base, e, n) == InitialFix(base, e)
    ensures n == 2 && Matches(AnchorHref, e) ==>
      Observed(base, e, n).attrs["href"] == FixValue(base, FixValue(base, e.attrs["href"]))
  {
    if !Matches(AnchorHref, e) && !Matches(ImageSrc, e) {
      RepeatUnmatched(base, ImageSrc, e, n);
    }
    if n == 2 && Matches(AnchorHref, e) {
      StepKeepsShape(base, AnchorHref, e);
      assert Repeat(base, AnchorHref, e, 1) == Step(base, AnchorHref, e);
    }
  }

  /** Reaching an element `a` times and then `b` times is reaching it `a + b` times. */
  lemma ObservedAdd(base: string, e: Element, a: nat, b: nat)
    ensures Observed(base, Observed(base, e, a), b) == Observed(base, e, a + b)
  {
    RepeatKeepsShape(base, AnchorHref, e, a);
    RepeatKeepsShape(base, ImageSrc, e, a);
    RepeatAdd(base, AnchorHref, e, a, b);
    RepeatAdd(base, ImageSrc, e, a, b);
  }

  /** The anchor rule `n` times and then the image rule `n` times act on one element as the observer reaching it `n` times. */
  lemma AnchorThenImage(base: string, e: Element, n: nat)
    ensures Repeat(base, ImageSrc, Repeat(base, AnchorHref, e, n), n) == Observed(base, e, n)
  {
    if Matches(AnchorHref, e) {
      RepeatKeepsShape(base, AnchorHref, e, n);
      RepeatUnmatched(base, ImageSrc, Repeat(base, AnchorHref, e, n), n);
    } else {
      RepeatUnmatched(base, AnchorHref, e, n);
    }
  }

  /** How often one added node reaches page element `k`: once as itself, once per listing among its descendants. */
  function Listed(node: AddedNode, k: nat): nat {
    match node
    case OtherNode => 0
    case ElementNode(i, ds) => (if k == i then 1 else 0) + multiset(ds)[k]
  }

  /** How often a record's added nodes reach page element `k`. */
  function ListedIn(nodes: seq<AddedNode>, k: nat): nat
    decreases |nodes|
  {
    if nodes == [] then 0 else ListedIn(nodes[..|nodes| - 1], k) + Listed(nodes[|nodes| - 1], k)
  }

  /** How often a batch of mutation records reaches page element `k`. */
  function ListedInRecords(ms: seq<MutationRecord>, k: nat): nat
    decreases |ms|
  {
    if ms == [] then 0
    else
      ListedInRecords(ms[..|ms| - 1], k)
      + match ms[|ms| - 1] { case OtherRecord => 0 case ChildList(nodes) => ListedIn(nodes, k) }
  }

  /** `fixAttribute` on the element at index `i`: that element takes the selector's rule, and no other changes. */
  function FixAt(base: string, es: seq<Element>, i: nat, sel: Selector): (r: seq<Element>)
    requires i < |es|
    ensures |r| == |es|
    ensures r[i] == Step(base, sel, es[i])
    ensures forall k | 0 <= k < |es| && k != i :: r[k] == es[k]
  {
    es[i := Step(base, sel, es[i])]
  }

  /**
   * `node.querySelectorAll(sel).forEach(fixAttribute)` over the descendants, in
   * order: each element takes the selector's rule once per time it is listed.
   */
  function FixEach(base: string, es: seq<Element>, ds: seq<nat>, sel: Selector): (r: seq<Element>)
    requires IndicesBelow(ds, |es|)
    ensures |r| == |es|
    ensures forall k | 0 <= k < |es| :: r[k] == Repeat(base, sel, es[k], multiset(ds)[k])
    decreases |ds|
  {
    if ds == [] then es
    else
      assert ds == ds[..|ds| - 1] + [ds[|ds| - 1]];
      FixAt(base, FixEach(base, es, ds[..|ds| - 1], sel), ds[|ds| - 1], sel)
  }

  /** One added node: itself as `a[href]` and `img[src]`, then its descendant anchors, then its descendant images. */
  function FixNode(base: string, es: seq<Element>, node: AddedNode): (r: seq<Element>)
    requires NodeInBounds(node, |es|)
    ensures |r| == |es|
  {
    match node
    case OtherNode => es
    case ElementNode(i, ds) =>
      var own := FixAt(base, FixAt(base, es, i, AnchorHref), i, ImageSrc);
      FixEach(base, FixEach(base, own, ds, AnchorHref), ds, ImageSrc)
  }

  function FixNodes(base: string, es: seq<Element>, nodes: seq<AddedNode>): (r: seq<Element>)
    requires NodesInBounds(nodes, |es|)
    ensures |r| == |es|
    decreases |nodes|
  {
    if nodes == [] then es
    else
      var prev := FixNodes(base, es, nodes[..|nodes| - 1]);
      FixNode(base, prev, nodes[|nodes| - 1])
  }

  /** The effect of one callback on a batch of mutation records. */
  function FixRecords(base: string, es: seq<Element>, ms: seq<MutationRecord>): (r: seq<Element>)
    requires RecordsInBounds(ms, |es|)
    ensures |r| == |es|
    decreases |ms|
  {
    if ms == [] then es
    else
      var prev := FixRecords(base, es, ms[..|ms| - 1]);
      match ms[|ms| - 1]
      case OtherRecord => prev
      case ChildList(nodes) => FixNodes(base, prev, nodes)
  }

  /** Handling one added node leaves every element as the observer reaching it `Listed(node, k)` times. */
  lemma FixNodeListed(base: string, es: seq<Element>, node: AddedNode)
    requires NodeInBounds(node, |es|)
    ensures forall k | 0 <= k < |es| :: FixNode(base, es, node)[k] == Observed(base, es[k], Listed(node, k))
  {
    match node
    case OtherNode =>
      forall k | 0 <= k < |es| ensures es[k] == Observed(base, es[k], 0) {
        ObservedMeaning(base, es[k], 0);
      }
    case ElementNode(i, ds) =>
      var own := FixAt(base, FixAt(base, es, i, AnchorHref), i, ImageSrc);
      forall k | 0 <= k < |es| ensures FixNode(base, es, node)[k] == Observed(base, es[k], Listed(node, k)) {
        var n := if k == i then 1 else 0;
        assert own[k] == Repeat(base, ImageSrc, Repeat(base, AnchorHref, es[k], n), n);
        AnchorThenImage(base, es[k], n);
        AnchorThenImage(base, own[k], multiset(ds)[k]);
        ObservedAdd(base, es[k], n, multiset(ds)[k]);
      }
  }

  /** Handling a record's added nodes leaves every element as the observer reaching it `ListedIn(nodes, k)` times. */
  lemma {:induction false} FixNodesListed(base: string, es: seq<Element>, nodes: seq<AddedNode>)
    requires NodesInBounds(nodes, |es|)
    ensures forall k | 0 <= k < |es| :: FixNodes(base, es, nodes)[k] == Observed(base, es[k], ListedIn(nodes, k))
    decreases |nodes|
  {
    if nodes == [] {
      forall k | 0 <= k < |es| ensures es[k] == Observed(base, es[k], 0) {
        ObservedMeaning(base, es[k], 0);
      }
    } else {
      var init, last := nodes[..|nodes| - 1], nodes[|nodes| - 1];
      var prev := FixNodes(base, es, init);
      FixNodesListed(base, es, init);
      FixNodeListed(base, prev, last);
      var r := FixNode(base, prev, last);
      assert FixNodes(base, es, nodes) == r;
      forall k | 0 <= k < |es| ensures r[k] == Observed(base, es[k], ListedIn(nodes, k)) {
        var a, b := ListedIn(init, k), Listed(last, k);
        assert ListedIn(nodes, k) == a + b;
        assert r[k] == Observed(base, Observed(base, es[k], a), b);
        ObservedAdd(base, es[k], a, b);
      }
    }
  }

  /**
   * The observer's callback on a batch of records leaves every element as the
   * observer reaching it `ListedInRecords(ms, k)` times.
   */
  lemma {:induction false} FixRecordsListed(base: string, es: seq<Element>, ms: seq<MutationRecord>)
    requires RecordsInBounds(ms, |es|)
    ensures forall k | 0 <= k < |es| :: FixRecords(base, es, ms)[k] == Observed(base, es[k], ListedInRecords(ms, k))
    decreases |ms|
  {
    if ms == [] {
      forall k | 0 <= k < |es| ensures es[k] == Observed(base, es[k], 0) {
        ObservedMeaning(base, es[k], 0);
      }
    } else {
      var init := ms[..|ms| - 1];
      var prev := FixRecords(base, es, init);
      FixRecordsListed(base, es, init);
      match ms[|ms| - 1]
      case OtherRecord =>
      case ChildList(nodes) =>
        FixNodesListed(base, prev, nodes);
        forall k | 0 <= k < |es| ensures FixRecords(base, es, ms)[k] == Observed(base, es[k], ListedInRecords(ms, k)) {
          ObservedAdd(base, es[k], ListedInRecords(init, k), ListedIn(nodes, k));
        }
    }
  }

  /**
   * Inserted anchors and images reached once, the inserted node itself or one of
   * its descendants, get the initial pass's rewrite; elements the records do not
   * reach are left exactly as they were.
   */
  lemma InsertedNodesGetInitialRule(base: string, es: seq<Element>, ms: seq<MutationRecord>)
    requires RecordsInBounds(ms, |es|)
    ensures forall k | 0 <= k < |es| && ListedInRecords(ms, k) == 0 :: FixRecords(base, es, ms)[k] == es[k]
    ensures forall k | 0 <= k < |es| && ListedInRecords(ms, k) == 1 && (Matches(AnchorHref, es[k]) || Matches(ImageSrc, es[k])) ::
      FixRecords(base, es, ms)[k] == InitialFix(base, es[k])
  {
    FixRecordsListed(base, es, ms);
    forall k | 0 <= k < |es| {
      ObservedMeaning(base, es[k], ListedInRecords(ms, k));
    }
  }

  /** The observer only rewrites anchors and images; any other element keeps every attribute. */
  predicate Untouched(old_: seq<Element>, new_: seq<Element>) {
    |new_| == |old_|
    && forall k :: 0 <= k < |old_| ==>
         new_[k].tag == old_[k].tag && new_[k].attrs.Keys == old_[k].attrs.Keys
         && (!Matches(AnchorHref, old_[k]) && !Matches(ImageSrc, old_[k]) ==> new_[k] == old_[k])
  }

  lemma UntouchedTrans(a: seq<Element>, b: seq<Element>, c: seq<Element>)
    requires Untouched(a, b) && Untouched(b, c)
    ensures Untouched(a, c)
  {
    forall k | 0 <= k < |a|
      ensures !Matches(AnchorHref, a[k]) && !Matches(ImageSrc, a[k]) ==> c[k] == a[k]
    {
      if !Matches(AnchorHref, a[k]) && !Matches(ImageSrc, a[k]) {
        assert Matches(AnchorHref, b[k]) == Matches(AnchorHref, a[k]);
        assert Matches(ImageSrc, b[k]) == Matches(ImageSrc, a[k]);
      }
    }
  }

  lemma FixAtUntouched(base: string, es: seq<Element>, i: nat, sel: Selector)
    requires i < |es| && (sel == AnchorHref || sel == ImageSrc)
    ensures Untouched(es, FixAt(base, es, i, sel))
  {
    StepKeepsShape(base, sel, es[i]);
  }

  lemma {:induction false} FixEachUntouched(base: string, es: seq<Element>, ds: seq<nat>, sel: Selector)
    requires IndicesBelow(ds, |es|) && (sel == AnchorHref || sel == ImageSrc)
    ensures Untouched(es, FixEach(base, es, ds, sel))
    decreases |ds|
  {
    if ds != [] {
      var prev := FixEach(base, es, ds[..|ds| - 1], sel);
      FixEachUntouched(base, es, ds[..|ds| - 1], sel);
      FixAtUntouched(base, prev, ds[|ds| - 1], sel);
      UntouchedTrans(es, prev, FixEach(base, es, ds, sel));
    }
  }

  lemma FixNodeUntouched(base: string, es: seq<Element>, node: AddedNode)
    requires NodeInBounds(node, |es|)
    ensures Untouched(es, FixNode(base, es, node))
  {
    match node
    case OtherNode =>
    case ElementNode(i, ds) =>
      var a := FixAt(base, es, i, AnchorHref);
      FixAtUntouched(base, es, i, AnchorHref);
      var own := FixAt(base, a, i, ImageSrc);
      FixAtUntouched(base, a, i, ImageSrc);
      UntouchedTrans(es, a, own);
      var links := FixEach(base, own, ds, AnchorHref);
      FixEachUntouched(base, own, ds, AnchorHref);
      UntouchedTrans(es, own, links);
      FixEachUntouched(base, links, ds, ImageSrc);
      UntouchedTrans(es, links, FixNode(base, es, node));
  }

  lemma {:induction false} FixNodesUntouched(base: string, es: seq<Element>, nodes: seq<AddedNode>)
    requires NodesInBounds(nodes, |es|)
    ensures Untouched(es, FixNodes(base, es, nodes))
    decreases |nodes|
  {
    if nodes != [] {
      var prev := FixNodes(base, es, nodes[..|nodes| - 1]);
      FixNodesUntouched(base, es, nodes[..|nodes| - 1]);
      FixNodeUntouched(base, prev, nodes[|nodes| - 1]);
      UntouchedTrans(es, prev, FixNodes(base, es, nodes));
    }
  }

  /**
   * Inserted content gets a narrower rule than the initial pass: only anchors and
   * images are rewritten; an inserted script, stylesheet, icon or meta element
   * keeps its value, and every element keeps its tag and attribute names.
   */
  lemma {:induction false} FixRecordsUntouched(base: string, es: seq<Element>, ms: seq<MutationRecord>)
    requires RecordsInBounds(ms, |es|)
    ensures Untouched(es, FixRecords(base, es, ms))
    decreases |ms|
  {
    if ms != [] {
      var prev := FixRecords(base, es, ms[..|ms| - 1]);
      FixRecordsUntouched(base, es, ms[..|ms| - 1]);
      match ms[|ms| - 1]
      case OtherRecord =>
      case ChildList(nodes) =>
        FixNodesUntouched(base, prev, nodes);
        UntouchedTrans(es, prev, FixRecords(base, es, ms));
    }
  }

  /** An inserted anchor or image with no descendants gets exactly the rewrite the initial pass gives it. */
  lemma InsertedLeafGetsInitialRule(base: string, es: seq<Element>, i: nat)
    requires i < |es|
    requires Matches(AnchorHref, es[i]) || Matches(ImageSrc, es[i])
    ensures RecordsInBounds([ChildList([ElementNode(i, [])])], |es|)
    ensures FixRecords(base, es, [ChildList([ElementNode(i, [])])]) == es[i := InitialFix(base, es[i])]
  {
    var ms := [ChildList([ElementNode(i, [])])];
    assert ms[..0] == [];
    var nodes := [ElementNode(i, [])];
    assert nodes[..0] == [];
    var own := FixAt(base, FixAt(base, es, i, AnchorHref), i, ImageSrc);
    assert FixNode(base, es, nodes[0]) == own;
    assert FixNodes(base, es, nodes) == own;
    StepKeepsShape(base, AnchorHref, es[i]);
    assert own[i] == InitialFix(base, es[i]);
    assert own == es[i := InitialFix(base, es[i])];
  }

  // ---------------------------------------------------------------------------
  // The page the resolver runs on

  class Document {
    /** Every element of the page, in document order. */
    var elements: seq<Element>
    /** The base path the mutation observer rewrites with, once it is set up. */
    var observer: Option<string>

    constructor (elements: seq<Element>)
      ensures this.elements == elements && observer == None
    {
      this.elements := elements;
      observer := None;
    }

    /**
     * The script's body: nothing happens under `file:` or when the base path is
     * empty; otherwise the initial pass runs and the observer is set up.
     */
    method Start(loc: Location)
      modifies this
      ensures loc.protocol == FileProtocol || BasePath(loc.hostname) == "" ==>
        elements == old(elements) && observer == old(observer)
      ensures loc.protocol != FileProtocol && BasePath(loc.hostname) != "" ==>
        elements == FixAllPaths(BasePath(loc.hostname), old(elements))
        && observer == Some(BasePath(loc.hostname))
    {
      if loc.protocol == FileProtocol {
        return;
      }
      var base := BasePath(loc.hostname);
      if base == "" {
        return;
      }
      FixAll(base);
      SetupMutationObserver(base);
    }

    method FixAll(base: string)
      modifies this
      ensures elements == FixAllPaths(base, old(elements)) && observer == old(observer)
    {
      RunPass(base, AnchorHref);
      RunPass(base, StylesheetHref);
      RunPass(base, ScriptSrc);
      RunPass(base, ImageSrc);
      RunPass(base, IconHref);
      RunPass(base, MetaContent);
    }

    /** One `querySelectorAll(...).forEach(...)` loop, rewriting the matching elements in place. */
    method RunPass(base: string, sel: Selector)
      modifies this
      ensures elements == Pass(base, sel, old(elements)) && observer == old(observer)
    {
      var i := 0;
      while i < |elements|
        invariant 0 <= i <= |elements| == |old(elements)|
        invariant forall k :: 0 <= k < i ==> elements[k] == Step(base, sel, old(elements)[k])
        invariant forall k :: i <= k < |elements| ==> elements[k] == old(elements)[k]
        invariant observer == old(observer)
      {
        elements := elements[i := Step(base, sel, elements[i])];
        i := i + 1;
      }
    }

    method SetupMutationObserver(base: string)
      modifies this
      ensures elements == old(elements)
      ensures observer == if base == "" then old(observer) else Some(base)
    {
      if base == "" {
        return;
      }
      observer := Some(base);
    }

    /** The observer's callback; without an observer no callback is ever delivered. */
    method OnMutations(ms: seq<MutationRecord>)
      requires RecordsInBounds(ms, |elements|)
      modifies this
      ensures observer == old(observer)
      ensures old(observer).None? ==> elements == old(elements)
      ensures old(observer).Some? ==> elements == FixRecords(old(observer).value, old(elements), ms)
    {
      if observer.None? {
        return;
      }
      var base := observer.value;
      var r := 0;
      while r < |ms|
        invariant 0 <= r <= |ms|
        invariant observer == old(observer) && |elements| == |old(elements)|
        invariant elements == FixRecords(base, old(elements), ms[..r])
      {
        assert ms[..r + 1][..r] == ms[..r];
        if ms[r].ChildList? {
          FixAddedNodes(base, ms[r].addedNodes);
        }
        r := r + 1;
      }
      assert ms[..|ms|] == ms;
    }

    method FixAddedNodes(base: string, nodes: seq<AddedNode>)
      requires NodesInBounds(nodes, |elements|)
      modifies this
      ensures elements == FixNodes(base, old(elements), nodes) && observer == old(observer)
    {
      var n := 0;
      while n < |nodes|
        invariant 0 <= n <= |nodes|
        invariant observer == old(observer) && |elements| == |old(elements)|
        invariant elements == FixNodes(base, old(elements), nodes[..n])
      {
        assert nodes[..n + 1][..n] == nodes[..n];
        if nodes[n].ElementNode? {
          var i := nodes[n].index;
          elements := elements[i := Step(base, AnchorHref, elements[i])];
          elements := elements[i := Step(base, ImageSrc, elements[i])];
          FixDescendants(base, nodes[n].descendants, AnchorHref);
          FixDescendants(base, nodes[n].descendants, ImageSrc);
        }
        n := n + 1;
      }
      assert nodes[..|nodes|] == nodes;
    }

    method FixDescendants(base: string, ds: seq<nat>, sel: Selector)
      requires IndicesBelow(ds, |elements|)
      modifies this
      ensures elements == FixEach(base, old(elements), ds, sel) && observer == old(observer)
    {
      var j := 0;
      while j < |ds|
        invariant 0 <= j <= |ds|
        invariant observer == old(observer) && |elements| == |old(elements)|
        invariant elements == FixEach(base, old(elements), ds[..j], sel)
      {
        assert ds[..j + 1][..j] == ds[..j];
        assert FixEach(base, old(elements), ds[..j + 1], sel)
          == FixAt(base, FixEach(base, old(elements), ds[..j], sel), ds[j], sel);
        elements := elements[ds[j] := Step(base, sel, elements[ds[j]])];
        j := j + 1;
      }
      assert ds[..|ds|] == ds;
    }
  }
}
