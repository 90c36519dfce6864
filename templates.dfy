/** Message templates: the source builds every diagnostic message from a
    template literal, literal text with values spliced in. `Fill` is that
    splicing; `Match` reads the values back out of a message. `MatchFill`
    proves the two inverse whenever no spliced value contains the character
    that ends its slot, which is what makes each message determine the
    element it talks about. */
module Templates {
  import opened Ast

  /** One piece of a template literal: fixed text or a `${...}` slot. */
  datatype Piece = Lit(text: string) | Hole

  function Holes(t: seq<Piece>): nat {
    if t == [] then 0 else (if t[0].Hole? then 1 else 0) + Holes(t[1..])
  }

  /** The message the template literal evaluates to for the given values. */
  function Fill(t: seq<Piece>, values: seq<string>): string
    requires |values| == Holes(t)
  {
    if t == [] then []
    else match t[0]
      case Lit(x) => x + Fill(t[1..], values)
      case Hole => values[0] + Fill(t[1..], values[1..])
  }

  /** The index of the first `c` in `s`, if there is one. */
  function IndexOf(s: string, c: char): (r: Option<nat>)
    ensures r.Some? ==> r.value < |s| && s[r.value] == c && c !in s[..r.value]
    ensures r.None? ==> c !in s
  {
    if s == [] then None
    else if s[0] == c then Some(0)
    else match IndexOf(s[1..], c)
      case None => None
      case Some(i) => (assert s[..i + 1] == [s[0]] + s[1..][..i]; Some(i + 1))
  }

  /** Reads the slot values back out of a message: a slot followed by
      literal text ends at the first occurrence of that text's first
      character; a slot at the end takes the rest of the message. */
  function Match(t: seq<Piece>, s: string): Option<seq<string>>
    decreases |t|
  {
    if t == [] then (if s == [] then Some([]) else None)
    else match t[0]
      case Lit(x) =>
        if x <= s then Match(t[1..], s[|x|..]) else None
      case Hole =>
        if |t| == 1 then Some([s])
        else if t[1].Hole? || t[1].text == [] then None
        else match IndexOf(s, t[1].text[0])
          case None => None
          case Some(i) =>
            match Match(t[1..], s[i..])
            case None => None
            case Some(vs) => Some([s[..i]] + vs)
  }

  /** No value contains the character that ends its slot. */
  predicate Admissible(t: seq<Piece>, values: seq<string>)
    requires |values| == Holes(t)
  {
    if t == [] then true
    else match t[0]
      case Lit(_) => Admissible(t[1..], values)
      case Hole =>
        && (|t| == 1 || (t[1].Lit? && t[1].text != [] && t[1].text[0] !in values[0]))
        && Admissible(t[1..], values[1..])
  }

  lemma {:induction false} IndexOfDelimiter(v: string, x: string, c: char)
    requires c !in v
    requires x != [] && x[0] == c
    ensures IndexOf(v + x, c) == Some(|v|)
  {
    if v != [] {
      assert (v + x)[1..] == v[1..] + x;
      IndexOfDelimiter(v[1..], x, c);
    }
  }

  /** Reading a filled template gives back exactly the values put in. */
  lemma {:induction false} MatchFill(t: seq<Piece>, values: seq<string>)
    requires |values| == Holes(t)
    requires Admissible(t, values)
    ensures Match(t, Fill(t, values)) == Some(values)
  {
    if t == [] {
    } else {
      match t[0]
      case Lit(x) =>
        var rest := Fill(t[1..], values);
        assert Fill(t, values) == x + rest;
        assert (x + rest)[|x|..] == rest;
        MatchFill(t[1..], values);
      case Hole =>
        var rest := Fill(t[1..], values[1..]);
        assert Fill(t, values) == values[0] + rest;
        if |t| == 1 {
          assert t[1..] == [];
          assert rest == [];
          assert Fill(t, values) == values[0];
          assert Match(t, values[0]) == Some([values[0]]);
          assert values == [values[0]];
        } else {
          var x := t[1].text;
          assert rest == x + Fill(t[2..], values[1..]);
          IndexOfDelimiter(values[0], rest, x[0]);
          var s := values[0] + rest;
          assert s[..|values[0]|] == values[0];
          assert s[|values[0]|..] == rest;
          MatchFill(t[1..], values[1..]);
          assert [values[0]] + values[1..] == values;
        }
    }
  }

  /** Whatever `Match` reads out of a message, filling the template with it
      rebuilds that message: a successful read is never a misreading. */
  lemma {:induction false} MatchSound(t: seq<Piece>, s: string, vs: seq<string>)
    requires Match(t, s) == Some(vs)
    ensures |vs| == Holes(t) && Fill(t, vs) == s
    decreases |t|
  {
    if t == [] {
    } else {
      match t[0]
      case Lit(x) =>
        MatchSound(t[1..], s[|x|..], vs);
        assert x + s[|x|..] == s;
      case Hole =>
        if |t| == 1 {
          assert vs == [s];
          assert t[1..] == [];
          assert Fill(t, vs) == s + Fill([], []);
        } else {
          var i := IndexOf(s, t[1].text[0]).value;
          var rest := Match(t[1..], s[i..]).value;
          assert vs == [s[..i]] + rest;
          MatchSound(t[1..], s[i..], rest);
          assert vs[1..] == rest;
          assert s[..i] + s[i..] == s;
        }
    }
  }

  lemma ConsLit(x: string, t: seq<Piece>, vs: seq<string>)
    requires |vs| == Holes(t)
    ensures Holes([Lit(x)] + t) == Holes(t)
    ensures Fill([Lit(x)] + t, vs) == x + Fill(t, vs)
    ensures Admissible([Lit(x)] + t, vs) == Admissible(t, vs)
  {
    assert ([Lit(x)] + t)[1..] == t;
  }

  lemma ConsHole(v: string, t: seq<Piece>, vs: seq<string>)
    requires |vs| == Holes(t)
    ensures Holes([Hole] + t) == Holes(t) + 1
    ensures Fill([Hole] + t, [v] + vs) == v + Fill(t, vs)
    ensures Admissible([Hole] + t, [v] + vs) ==
      ((t == [] || (t[0].Lit? && t[0].text != [] && t[0].text[0] !in v)) && Admissible(t, vs))
  {
    assert ([Hole] + t)[1..] == t;
    assert ([v] + vs)[1..] == vs;
  }

  // The three shapes of template the rules use, each read back by `MatchFill`.

  /** `a${v}b` */
  lemma OneSlot(a: string, b: string, v: string)
    requires b != [] && b[0] !in v
    ensures Holes([Lit(a), Hole, Lit(b)]) == 1
    ensures Fill([Lit(a), Hole, Lit(b)], [v]) == a + v + b
    ensures Match([Lit(a), Hole, Lit(b)], a + v + b) == Some([v])
  {
    var t2 := [Lit(b)];
    ConsLit(b, [], []);
    assert [Lit(b)] + [] == t2;
    ConsHole(v, t2, []);
    assert [Hole] + t2 == [Hole, Lit(b)] && [v] + [] == [v];
    ConsLit(a, [Hole, Lit(b)], [v]);
    assert [Lit(a)] + [Hole, Lit(b)] == [Lit(a), Hole, Lit(b)];
    assert a + (v + (b + [])) == a + v + b;
    MatchFill([Lit(a), Hole, Lit(b)], [v]);
  }

  /** `a${u}b${v}c${w}`, filled; the values fit their slots exactly when
      neither of the first two contains the character that closes it. */
  lemma ThreeSlotsFill(a: string, b: string, c: string, u: string, v: string, w: string)
    ensures Holes([Lit(a), Hole, Lit(b), Hole, Lit(c), Hole]) == 3
    ensures Fill([Lit(a), Hole, Lit(b), Hole, Lit(c), Hole], [u, v, w]) == a + u + b + v + c + w
    ensures Admissible([Lit(a), Hole, Lit(b), Hole, Lit(c), Hole], [u, v, w])
        <==> (b != [] && b[0] !in u) && (c != [] && c[0] !in v)
  {
    ConsHole(w, [], []);
    assert [Hole] + [] == [Hole] && [w] + [] == [w];
    ConsLit(c, [Hole], [w]);
    assert [Lit(c)] + [Hole] == [Lit(c), Hole];
    ConsHole(v, [Lit(c), Hole], [w]);
    assert [Hole] + [Lit(c), Hole] == [Hole, Lit(c), Hole] && [v] + [w] == [v, w];
    ConsLit(b, [Hole, Lit(c), Hole], [v, w]);
    assert [Lit(b)] + [Hole, Lit(c), Hole] == [Lit(b), Hole, Lit(c), Hole];
    ConsHole(u, [Lit(b), Hole, Lit(c), Hole], [v, w]);
    assert [Hole] + [Lit(b), Hole, Lit(c), Hole] == [Hole, Lit(b), Hole, Lit(c), Hole];
    assert [u] + [v, w] == [u, v, w];
    ConsLit(a, [Hole, Lit(b), Hole, Lit(c), Hole], [u, v, w]);
    assert [Lit(a)] + [Hole, Lit(b), Hole, Lit(c), Hole] == [Lit(a), Hole, Lit(b), Hole, Lit(c), Hole];
    assert a + (u + (b + (v + (c + (w + []))))) == a + u + b + v + c + w;
  }

  /** `a${u}b${v}c${w}` */
  lemma ThreeSlots(a: string, b: string, c: string, u: string, v: string, w: string)
    requires b != [] && b[0] !in u
    requires c != [] && c[0] !in v
    ensures Match([Lit(a), Hole, Lit(b), Hole, Lit(c), Hole], a + u + b + v + c + w) == Some([u, v, w])
  {
    ThreeSlotsFill(a, b, c, u, v, w);
    MatchFill([Lit(a), Hole, Lit(b), Hole, Lit(c), Hole], [u, v, w]);
  }

  /** `a${u}b${v}c${w}d${x}`, filled; the values fit their slots exactly
      when none of the first three contains the character that closes it. */
  lemma FourSlotsFill(a: string, b: string, c: string, d: string, u: string, v: string, w: string, x: string)
    ensures Holes([Lit(a), Hole, Lit(b), Hole, Lit(c), Hole, Lit(d), Hole]) == 4
    ensures Fill([Lit(a), Hole, Lit(b), Hole, Lit(c), Hole, Lit(d), Hole], [u, v, w, x])
         == a + u + b + v + c + w + d + x
    ensures Admissible([Lit(a), Hole, Lit(b), Hole, Lit(c), Hole, Lit(d), Hole], [u, v, w, x])
        <==> (b != [] && b[0] !in u) && (c != [] && c[0] !in v) && (d != [] && d[0] !in w)
  {
    var t1 := [Lit(b), Hole, Lit(c), Hole, Lit(d), Hole];
    ThreeSlotsFill(b, c, d, v, w, x);
    ConsHole(u, t1, [v, w, x]);
    assert [Hole] + t1 == [Hole, Lit(b), Hole, Lit(c), Hole, Lit(d), Hole];
    assert [u] + [v, w, x] == [u, v, w, x];
    ConsLit(a, [Hole] + t1, [u, v, w, x]);
    assert [Lit(a)] + ([Hole] + t1) == [Lit(a), Hole, Lit(b), Hole, Lit(c), Hole, Lit(d), Hole];
    assert a + (u + (b + v + c + w + d + x)) == a + u + b + v + c + w + d + x;
  }

  /** `a${u}b${v}c${w}d${x}` */
  lemma FourSlots(a: string, b: string, c: string, d: string, u: string, v: string, w: string, x: string)
    requires b != [] && b[0] !in u
    requires c != [] && c[0] !in v
    requires d != [] && d[0] !in w
    ensures Match([Lit(a), Hole, Lit(b), Hole, Lit(c), Hole, Lit(d), Hole], a + u + b + v + c + w + d + x)
         == Some([u, v, w, x])
  {
    FourSlotsFill(a, b, c, d, u, v, w, x);
    MatchFill([Lit(a), Hole, Lit(b), Hole, Lit(c), Hole, Lit(d), Hole], [u, v, w, x]);
  }

  /** A Name never contains the punctuation that closes a slot. */
  lemma NameAdmitted(s: string)
    requires IsName(s)
    ensures '.' !in s && ' ' !in s && '"' !in s
  {
    NameHasNoDelimiter(s, '.');
    NameHasNoDelimiter(s, ' ');
    NameHasNoDelimiter(s, '"');
  }
}
