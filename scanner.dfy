/**
  The scan of a message body (`replaceWithEmotes` / `_replaceWithEmotes` with
  `hasTagInParents`). The page is a tree of elements and text nodes; the scan returns a
  replacement plan instead of swapping nodes as it goes, together with the names it sends
  to the directory.

  Every lookup of one scan reads the cache as it was when the scan started: the traversal
  and every token's `getEmoteFromContent` run synchronously up to their first `await`, so
  all cache reads and all requests happen before any answer is written back.
 */
module Scanner {
  import opened Wrappers
  import opened Strings
  import opened Shortcode
  import opened Resolver
  import opened Rebuild

  /** A node of the rendered page: an element with its tag name, `role` and children, or a text node. */
  datatype Node = Element(tag: string, role: string, children: seq<Node>) | Text(data: string)

  /** What happens to a node: left alone, swapped for pieces, or visited child by child. */
  datatype Plan = Keep | Replace(pieces: seq<Piece>) | Descend(children: seq<Plan>)

  /** The plan for a node and the names sent to the directory while scanning it, in order. */
  datatype ScanResult = ScanResult(plan: Plan, requests: seq<string>)
  datatype ChildrenResult = ChildrenResult(plans: seq<Plan>, requests: seq<string>)

  const CodeTag: string := "CODE"
  const ImgRole: string := "img"

  /** The recursion over `parentNode`: the ancestors' tag names, nearest first, up to the document. */
  function AncestorHasTag(ancestors: seq<string>, tag: string): bool
    decreases |ancestors|
  {
    |ancestors| > 0 && (ancestors[0] == tag || AncestorHasTag(ancestors[1..], tag))
  }

  /** `hasTagInParents(node, tag)`: the node itself or one of its ancestors has that tag name. */
  function HasTagInParents(n: Node, ancestors: seq<string>, tag: string): bool
  {
    (n.Element? && n.tag == tag) || AncestorHasTag(ancestors, tag)
  }

  lemma {:induction false} AncestorHasTagIsMembership(ancestors: seq<string>, tag: string)
    ensures AncestorHasTag(ancestors, tag) <==> tag in ancestors
    decreases |ancestors|
  {
    if |ancestors| > 0 {
      AncestorHasTagIsMembership(ancestors[1..], tag);
      assert ancestors == [ancestors[0]] + ancestors[1..];
    }
  }

  /** `textContent`: the text of all descendant text nodes, in document order. */
  function TextContent(n: Node): string
    decreases n
  {
    match n
    case Text(d) => d
    case Element(_, _, cs) => TextContentAll(cs)
  }

  function TextContentAll(cs: seq<Node>): string
    decreases cs
  {
    if cs == [] then "" else TextContent(cs[0]) + TextContentAll(cs[1..])
  }

  /** One token after resolution: the emote it resolves to, or the token as text. */
  function TokenPiece(token: string, cache: Cache, api: Api): Piece
  {
    match ContentLookup(cache, token, api)
    case Some(e) => Image(e, token)
    case None => Literal(token)
  }

  /** The request a token causes: its name, when it is a shortcode the cache does not hold. */
  function TokenRequests(token: string, cache: Cache): seq<string>
  {
    match EmoteName(token)
    case None => []
    case Some(name) => if Misses(cache, name) then [name] else []
  }

  function LeafPieces(tokens: seq<string>, cache: Cache, api: Api): seq<Piece>
  {
    seq(|tokens|, i requires 0 <= i < |tokens| => TokenPiece(tokens[i], cache, api))
  }

  function LeafRequests(tokens: seq<string>, cache: Cache): seq<string>
    decreases |tokens|
  {
    if tokens == [] then [] else TokenRequests(tokens[0], cache) + LeafRequests(tokens[1..], cache)
  }

  predicate AnyImage(ps: seq<Piece>)
  {
    exists i :: 0 <= i < |ps| && ps[i].Image?
  }

  /** A text node: split on single spaces, resolve every token, and rebuild only when one resolved. */
  function ScanText(data: string, cache: Cache, api: Api): ScanResult
  {
    var tokens := Split(data);
    var pieces := LeafPieces(tokens, cache, api);
    ScanResult(if AnyImage(pieces) then Replace(Coalesce(pieces)) else Keep, LeafRequests(tokens, cache))
  }

  /** An element with `role="img"`: its trimmed text as one token, swapped whole when it resolves. */
  function ScanImage(n: Node, cache: Cache, api: Api): ScanResult
  {
    var text := Trim(TextContent(n));
    match ContentLookup(cache, text, api)
    case Some(e) => ScanResult(Replace([Image(e, text)]), TokenRequests(text, cache))
    case None => ScanResult(Keep, TokenRequests(text, cache))
  }

  /** `_replaceWithEmotes(node)`, given the tag names of the node's ancestors, nearest first. */
  function Scan(n: Node, ancestors: seq<string>, cache: Cache, api: Api): ScanResult
    decreases n
  {
    if HasTagInParents(n, ancestors, CodeTag) then ScanResult(Keep, [])
    else match n
      case Text(data) => ScanText(data, cache, api)
      case Element(tag, role, children) =>
        if role == ImgRole then ScanImage(n, cache, api)
        else
          var r := ScanChildren(children, [tag] + ancestors, cache, api);
          ScanResult(Descend(r.plans), r.requests)
  }

  /** `childNodes.forEach(_replaceWithEmotes)`. */
  function ScanChildren(cs: seq<Node>, ancestors: seq<string>, cache: Cache, api: Api): ChildrenResult
    decreases cs
  {
    if cs == [] then ChildrenResult([], [])
    else
      var head := Scan(cs[0], ancestors, cache, api);
      var tail := ScanChildren(cs[1..], ancestors, cache, api);
      ChildrenResult([head.plan] + tail.plans, head.requests + tail.requests)
  }

  /** `replaceWithEmotes(messageDiv)`: the message body, when the message has one. */
  function ScanMessage(body: Option<Node>, ancestors: seq<string>, cache: Cache, api: Api): ScanResult
  {
    match body
    case None => ScanResult(Keep, [])
    case Some(b) => Scan(b, ancestors, cache, api)
  }

  /** A CODE element, or any node below one, is left alone and sends nothing, at whatever depth the scan meets it. */
  lemma ScanUnderCode(n: Node, ancestors: seq<string>, cache: Cache, api: Api)
    requires CodeTag in ancestors || (n.Element? && n.tag == CodeTag)
    ensures Scan(n, ancestors, cache, api) == ScanResult(Keep, [])
  {
    AncestorHasTagIsMembership(ancestors, CodeTag);
  }

  /** The tree with the content of every CODE element dropped, except inside `role="img"` elements, whose text is read whole. */
  function StripCode(n: Node): Node
    decreases n
  {
    match n
    case Text(_) => n
    case Element(tag, role, cs) =>
      if tag == CodeTag then Element(tag, role, [])
      else if role == ImgRole then n
      else Element(tag, role, StripAll(cs))
  }

  function StripAll(cs: seq<Node>): seq<Node>
    decreases cs
  {
    if cs == [] then [] else [StripCode(cs[0])] + StripAll(cs[1..])
  }

  /** What lies inside a CODE element never affects the plan or the requests: the scan does not descend there. */
  lemma {:induction false} ScanIgnoresCode(n: Node, ancestors: seq<string>, cache: Cache, api: Api)
    ensures Scan(StripCode(n), ancestors, cache, api) == Scan(n, ancestors, cache, api)
    decreases n
  {
    match n
    case Text(_) =>
    case Element(tag, role, cs) =>
      if tag != CodeTag && role != ImgRole {
        ScanChildrenIgnoresCode(cs, [tag] + ancestors, cache, api);
      }
  }

  lemma {:induction false} ScanChildrenIgnoresCode(cs: seq<Node>, ancestors: seq<string>, cache: Cache, api: Api)
    ensures ScanChildren(StripAll(cs), ancestors, cache, api) == ScanChildren(cs, ancestors, cache, api)
    decreases cs
  {
    if cs != [] {
      ScanIgnoresCode(cs[0], ancestors, cache, api);
      ScanChildrenIgnoresCode(cs[1..], ancestors, cache, api);
      assert StripAll(cs)[1..] == StripAll(cs[1..]);
    }
  }

  /** Every name requested is the text between a shortcode's first and last colon, and the cache did not hold it. */
  ghost predicate ValidRequests(requests: seq<string>, cache: Cache)
  {
    forall i :: 0 <= i < |requests| ==> IsName(requests[i]) && Misses(cache, requests[i])
  }

  lemma ValidRequestsAppend(a: seq<string>, b: seq<string>, cache: Cache)
    requires ValidRequests(a, cache) && ValidRequests(b, cache)
    ensures ValidRequests(a + b, cache)
  {
    forall i | 0 <= i < |a + b| ensures IsName((a + b)[i]) && Misses(cache, (a + b)[i]) {
      if i >= |a| { assert (a + b)[i] == b[i - |a|]; }
    }
  }

  lemma TokenRequestsValid(token: string, cache: Cache)
    ensures ValidRequests(TokenRequests(token, cache), cache)
  {
  }

  lemma {:induction false} LeafRequestsValid(tokens: seq<string>, cache: Cache)
    ensures ValidRequests(LeafRequests(tokens, cache), cache)
    decreases |tokens|
  {
    if tokens != [] {
      TokenRequestsValid(tokens[0], cache);
      LeafRequestsValid(tokens[1..], cache);
      ValidRequestsAppend(TokenRequests(tokens[0], cache), LeafRequests(tokens[1..], cache), cache);
    }
  }

  lemma {:induction false} ScanRequestsValid(n: Node, ancestors: seq<string>, cache: Cache, api: Api)
    ensures ValidRequests(Scan(n, ancestors, cache, api).requests, cache)
    decreases n
  {
    if !HasTagInParents(n, ancestors, CodeTag) {
      match n
      case Text(data) =>
        assert Scan(n, ancestors, cache, api) == ScanText(data, cache, api);
        assert ScanText(data, cache, api).requests == LeafRequests(Split(data), cache);
        LeafRequestsValid(Split(data), cache);
      case Element(tag, role, cs) =>
        if role == ImgRole {
          var text := Trim(TextContent(n));
          assert Scan(n, ancestors, cache, api) == ScanImage(n, cache, api);
          assert ScanImage(n, cache, api).requests == TokenRequests(text, cache);
          TokenRequestsValid(text, cache);
        } else {
          assert Scan(n, ancestors, cache, api).requests == ScanChildren(cs, [tag] + ancestors, cache, api).requests;
          ScanChildrenRequestsValid(cs, [tag] + ancestors, cache, api);
        }
    }
  }

  lemma {:induction false} ScanChildrenRequestsValid(cs: seq<Node>, ancestors: seq<string>, cache: Cache, api: Api)
    ensures ValidRequests(ScanChildren(cs, ancestors, cache, api).requests, cache)
    decreases cs
  {
    if cs != [] {
      ScanRequestsValid(cs[0], ancestors, cache, api);
      ScanChildrenRequestsValid(cs[1..], ancestors, cache, api);
      ValidRequestsAppend(Scan(cs[0], ancestors, cache, api).requests, ScanChildren(cs[1..], ancestors, cache, api).requests, cache);
    }
  }

  lemma SpellLeafPieces(tokens: seq<string>, cache: Cache, api: Api)
    ensures Spell(LeafPieces(tokens, cache, api)) == tokens
  {
  }

  /** A text node none of whose tokens resolves is left untouched: no rewrite, not even with equal content. */
  lemma ScanTextNoOp(data: string, cache: Cache, api: Api)
    requires forall i :: 0 <= i < |Split(data)| ==> ContentLookup(cache, Split(data)[i], api).None?
    ensures ScanText(data, cache, api).plan == Keep
  {
  }

  /**
    A text node is rebuilt exactly when one of its space-separated tokens resolves. Then no two
    neighbouring pieces are text, the emote pieces are those of the resolved tokens in token
    order, and writing every piece as its source text, joined by single spaces, gives back the
    node's text.
   */
  lemma ScanTextRebuild(data: string, cache: Cache, api: Api)
    ensures var tokens := Split(data);
      ScanText(data, cache, api).plan.Replace? <==>
        exists i :: 0 <= i < |tokens| && ContentLookup(cache, tokens[i], api).Some?
    ensures var plan := ScanText(data, cache, api).plan;
      plan.Replace? ==>
        && NoAdjacentLiterals(plan.pieces)
        && Images(plan.pieces) == Images(LeafPieces(Split(data), cache, api))
        && Join(Spell(plan.pieces)) == data
  {
    var tokens := Split(data);
    var pieces := LeafPieces(tokens, cache, api);
    assert forall i :: 0 <= i < |tokens| ==> (pieces[i].Image? <==> ContentLookup(cache, tokens[i], api).Some?);
    if AnyImage(pieces) {
      CoalesceNoAdjacentLiterals(pieces);
      CoalesceImages(pieces);
      CoalesceSpelling(pieces);
      SpellLeafPieces(tokens, cache, api);
      JoinSplit(data);
    }
  }

  /** An element with `role="img"` is swapped whole for the emote of its trimmed text when that resolves, and kept otherwise. */
  lemma ScanImageElement(n: Node, ancestors: seq<string>, cache: Cache, api: Api)
    requires n.Element? && n.role == ImgRole && !HasTagInParents(n, ancestors, CodeTag)
    ensures var text := Trim(TextContent(n));
      match ContentLookup(cache, text, api)
      case Some(e) => Scan(n, ancestors, cache, api).plan == Replace([Image(e, text)])
      case None => Scan(n, ancestors, cache, api).plan == Keep
  {
  }

  /** A scan and the arrival of all its answers never remove or change an entry the cache held before. */
  lemma ScanKeepsCache(body: Option<Node>, ancestors: seq<string>, cache: Cache, api: Api)
    ensures Extends(cache, Settle(cache, ScanMessage(body, ancestors, cache, api).requests, api))
  {
    if body.Some? {
      ScanRequestsValid(body.value, ancestors, cache, api);
    }
    SettleExtends(cache, ScanMessage(body, ancestors, cache, api).requests, api);
  }

  /** `replaceWithEmotes(messageDiv)` run to completion: the plan, then every answer written into the cache. */
  method ReplaceWithEmotes(resolver: EmoteResolver, body: Option<Node>, ancestors: seq<string>, api: Api)
    returns (plan: Plan)
    modifies resolver
    ensures plan == ScanMessage(body, ancestors, old(resolver.cache), api).plan
    ensures resolver.requests == old(resolver.requests) + ScanMessage(body, ancestors, old(resolver.cache), api).requests
    ensures resolver.cache == Settle(old(resolver.cache), ScanMessage(body, ancestors, old(resolver.cache), api).requests, api)
    ensures Extends(old(resolver.cache), resolver.cache)
  {
    var scan := ScanMessage(body, ancestors, resolver.cache, api);
    ScanKeepsCache(body, ancestors, resolver.cache, api);
    plan := scan.plan;
    resolver.CompleteAll(scan.requests, api);
  }
}
