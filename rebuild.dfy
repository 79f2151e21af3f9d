/**
  The rebuild step of a text node (the `reduce` in `_replaceWithEmotes`): the per-token
  pieces, literal text or a resolved emote, are folded left to right; a literal that follows
  a literal is appended to it after one space, anything else starts a new piece. Nothing is
  inserted next to an emote, so the spaces that separated an emote from its neighbours are
  not part of the result.
 */
module Rebuild {
  import opened Strings
  import opened Resolver

  /** An unresolved run of text, or an emote element standing for the token it replaces. */
  datatype Piece = Literal(text: string) | Image(emote: EmoteRef, token: string)

  /** The source text a piece stands for. */
  function Spelling(p: Piece): string
  {
    match p
    case Literal(t) => t
    case Image(_, t) => t
  }

  function Spell(ps: seq<Piece>): seq<string>
  {
    seq(|ps|, i requires 0 <= i < |ps| => Spelling(ps[i]))
  }

  /** The emote pieces, in order. */
  function Images(ps: seq<Piece>): seq<Piece>
    decreases |ps|
  {
    if ps == [] then []
    else Images(ps[..|ps| - 1]) + (if ps[|ps| - 1].Image? then [ps[|ps| - 1]] else [])
  }

  predicate NoAdjacentLiterals(ps: seq<Piece>)
  {
    forall i :: 0 <= i < |ps| - 1 ==> !(ps[i].Literal? && ps[i + 1].Literal?)
  }

  /** One step of the reduce: extend a trailing literal with a space and the new text, or push the piece. */
  function Push(acc: seq<Piece>, p: Piece): seq<Piece>
  {
    if p.Literal? && |acc| > 0 && acc[|acc| - 1].Literal? then
      acc[..|acc| - 1] + [Literal(acc[|acc| - 1].text + " " + p.text)]
    else acc + [p]
  }

  /** The reduce over all pieces, from the empty accumulator. */
  function Coalesce(ps: seq<Piece>): seq<Piece>
    decreases |ps|
  {
    if ps == [] then [] else Push(Coalesce(ps[..|ps| - 1]), ps[|ps| - 1])
  }

  /** The reduce as the script runs it, growing one accumulator in place. */
  method Reduce(data: seq<Piece>) returns (arr: seq<Piece>)
    ensures arr == Coalesce(data)
  {
    arr := [];
    for i := 0 to |data|
      invariant arr == Coalesce(data[..i])
    {
      var content := data[i];
      if content.Literal? && |arr| > 0 && arr[|arr| - 1].Literal? {
        arr := arr[..|arr| - 1] + [Literal(arr[|arr| - 1].text + " " + content.text)];
      } else {
        arr := arr + [content];
      }
      assert data[..i + 1][..i] == data[..i];
    }
    assert data[..|data|] == data;
  }

  /** After the fold no two neighbouring pieces are both text. */
  lemma {:induction false} CoalesceNoAdjacentLiterals(ps: seq<Piece>)
    ensures NoAdjacentLiterals(Coalesce(ps))
    decreases |ps|
  {
    if ps != [] {
      CoalesceNoAdjacentLiterals(ps[..|ps| - 1]);
    }
  }

  lemma ImagesSnoc(a: seq<Piece>, p: Piece)
    ensures Images(a + [p]) == Images(a) + (if p.Image? then [p] else [])
  {
    assert (a + [p])[..|a|] == a;
  }

  /** The fold keeps every emote piece, in order, and adds none. */
  lemma {:induction false} CoalesceImages(ps: seq<Piece>)
    ensures Images(Coalesce(ps)) == Images(ps)
    decreases |ps|
  {
    if ps != [] {
      var front := ps[..|ps| - 1];
      var p := ps[|ps| - 1];
      var acc := Coalesce(front);
      CoalesceImages(front);
      assert front + [p] == ps;
      ImagesSnoc(front, p);
      if p.Literal? && |acc| > 0 && acc[|acc| - 1].Literal? {
        var init := acc[..|acc| - 1];
        var merged := Literal(acc[|acc| - 1].text + " " + p.text);
        assert init + [acc[|acc| - 1]] == acc;
        assert Coalesce(ps) == init + [merged];
        ImagesSnoc(init, acc[|acc| - 1]);
        ImagesSnoc(init, merged);
      } else {
        assert Coalesce(ps) == acc + [p];
        ImagesSnoc(acc, p);
      }
    }
  }

  lemma SpellAppend(a: seq<Piece>, b: seq<Piece>)
    ensures Spell(a + b) == Spell(a) + Spell(b)
  {
  }

  lemma SpellSnoc(a: seq<Piece>, p: Piece)
    ensures Spell(a + [p]) == Spell(a) + [Spelling(p)]
  {
  }

  /** Extending the last word of a joined list by a space and more text extends the joined text the same way. */
  lemma JoinExtendLast(ws: seq<string>, last: string, t: string)
    ensures Join(ws + [last + " " + t]) == Join(ws + [last]) + " " + t
  {
    if ws == [] {
      assert [] + [last + " " + t] == [last + " " + t];
      assert [] + [last] == [last];
    } else {
      JoinSnoc(ws, last);
      JoinSnoc(ws, last + " " + t);
      assert Join(ws) + " " + (last + " " + t) == (Join(ws) + " " + last) + " " + t;
    }
  }

  /**
    The round trip: writing each piece as the text it stands for (an emote as its token)
    and joining with single spaces reproduces the spaced tokens exactly.
   */
  lemma {:induction false} CoalesceSpelling(ps: seq<Piece>)
    requires |ps| > 0
    ensures |Coalesce(ps)| > 0
    ensures Join(Spell(Coalesce(ps))) == Join(Spell(ps))
    decreases |ps|
  {
    var front := ps[..|ps| - 1];
    var p := ps[|ps| - 1];
    assert ps == front + [p];
    SpellSnoc(front, p);
    if front == [] {
      assert Coalesce(ps) == [p];
      SpellSnoc([], p);
      assert [] + [p] == [p];
    } else {
      CoalesceSpelling(front);
      JoinSnoc(Spell(front), Spelling(p));
      var acc := Coalesce(front);
      if p.Literal? && acc[|acc| - 1].Literal? {
        var init := acc[..|acc| - 1];
        var last := acc[|acc| - 1].text;
        assert acc == init + [acc[|acc| - 1]];
        assert Coalesce(ps) == init + [Literal(last + " " + p.text)];
        SpellSnoc(init, acc[|acc| - 1]);
        SpellSnoc(init, Literal(last + " " + p.text));
        JoinExtendLast(Spell(init), last, p.text);
      } else {
        assert Coalesce(ps) == acc + [p];
        SpellSnoc(acc, p);
        JoinSnoc(Spell(acc), Spelling(p));
      }
    }
  }

  /** An input without emotes becomes one text piece. */
  lemma {:induction false} CoalesceLiteralsOnly(ps: seq<Piece>)
    requires |ps| > 0
    requires forall i :: 0 <= i < |ps| ==> ps[i].Literal?
    ensures Coalesce(ps) == [Literal(Join(Spell(ps)))]
    decreases |ps|
  {
    var front := ps[..|ps| - 1];
    var p := ps[|ps| - 1];
    if front != [] {
      assert forall i :: 0 <= i < |front| ==> front[i].Literal? by {
        forall i | 0 <= i < |front| ensures front[i].Literal? { assert front[i] == ps[i]; }
      }
      CoalesceLiteralsOnly(front);
      assert ps == front + [p];
      SpellAppend(front, [p]);
      assert Spell([p]) == [p.text];
      JoinSnoc(Spell(front), p.text);
      assert Coalesce(ps) == [Literal(Join(Spell(front)) + " " + p.text)];
    }
  }
}
