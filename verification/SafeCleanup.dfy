/** Deterministic transcript cleanup (speaktap/cleanup/safe.py): remove hesitation sounds
    and immediately repeated words or short phrases. */
module SafeCleanup {
  import opened Domain

  const FILLERS: set<string> := {"ah", "er", "euh", "heu", "hmm", "uh", "um"}

  /** Words whose immediate repetition can be grammatical. */
  const DOUBLES: set<string> :=
    {"nous", "vous", "si", "non", "oui", "had", "that", "is",
     "very", "well", "no", "yes", "many", "long", "far"}

  const MAX_WIDTH := 4

  /** What regular expressions and character tests decide about one token. */
  datatype Lexicon = Lexicon(key: string -> string, isAcronym: string -> bool, hasDigit: string -> bool)

  predicate IsFiller(lex: Lexicon, tokens: seq<string>, i: nat)
    requires i < |tokens|
  {
    && lex.key(tokens[i]) in FILLERS
    && !lex.isAcronym(tokens[i])
    && !(lex.key(tokens[i]) == "ah" && i > 0 && lex.hasDigit(tokens[i - 1]))
  }

  /** The w keys at i occur again immediately. */
  predicate RepeatsAt(keys: seq<string>, i: nat, w: nat) {
    i + 2 * w <= |keys| && keys[i..i + w] == keys[i + w..i + 2 * w]
  }

  /** The repeated phrase at i has width w: the widest repeat of at most MAX_WIDTH words,
      unless that is a single grammatical double; 0 when nothing is to be removed. */
  predicate IsWidth(keys: seq<string>, i: nat, w: nat)
    requires i < |keys|
  {
    && w <= MAX_WIDTH
    && (w > 0 ==> RepeatsAt(keys, i, w) && !(w == 1 && keys[i] in DOUBLES))
    && (forall v :: w < v <= MAX_WIDTH && RepeatsAt(keys, i, v) ==> w == 0 && v == 1 && keys[i] in DOUBLES)
  }

  method RepeatedWidth(keys: seq<string>, index: nat) returns (repeatedWidth: nat)
    requires index < |keys|
    ensures IsWidth(keys, index, repeatedWidth)
  {
    var width := Min(MAX_WIDTH, (|keys| - index) / 2);
    while width > 0
      invariant 0 <= width <= MAX_WIDTH && index + 2 * width <= |keys|
      invariant forall v :: width < v <= MAX_WIDTH ==> !RepeatsAt(keys, index, v)
    {
      if keys[index..index + width] == keys[index + width..index + 2 * width] {
        if width == 1 && keys[index] in DOUBLES {
          return 0;
        }
        return width;
      }
      width := width - 1;
    }
    return 0;
  }

  lemma WidthIsUnique(keys: seq<string>, i: nat, v: nat, w: nat)
    requires i < |keys| && IsWidth(keys, i, v) && IsWidth(keys, i, w)
    ensures v == w
  {
  }

  // ---------------------------------------------------------------- parts

  /** How the scan treats one stretch of tokens. */
  datatype Part = Skip(at: nat) | Single(at: nat) | Block(at: nat, width: nat)
  {
    function End(): nat {
      match this
      case Skip(_) => at + 1
      case Single(_) => at + 1
      case Block(_, _) => at + 2 * width
    }

    /** The indexes it keeps, from at. */
    function Keeps(): nat {
      match this
      case Skip(_) => 0
      case Single(_) => 1
      case Block(_, _) => width
    }
  }

  /** The part the scan must make at its position. */
  predicate Right(lex: Lexicon, tokens: seq<string>, part: Part) {
    && part.at < |tokens| && part.End() <= |tokens|
    && (part.Skip? <==> IsFiller(lex, tokens, part.at))
    && (part.Single? ==> IsWidth(Keys(lex.key, tokens), part.at, 0))
    && (part.Block? ==> part.width > 0 && IsWidth(Keys(lex.key, tokens), part.at, part.width))
  }

  /** parts tile the tokens from..to without gap or overlap. */
  predicate Tiles(parts: seq<Part>, from: nat, to: nat) {
    if parts == [] then from == to
    else
      var last := parts[|parts| - 1];
      last.End() == to && Tiles(parts[..|parts| - 1], from, last.at)
  }

  predicate Scan(lex: Lexicon, tokens: seq<string>, parts: seq<Part>, to: nat) {
    Tiles(parts, 0, to) && forall k :: 0 <= k < |parts| ==> Right(lex, tokens, parts[k])
  }

  /** The tokens a scan keeps. */
  function Output(tokens: seq<string>, parts: seq<Part>): seq<string>
    requires forall k :: 0 <= k < |parts| ==> 0 <= parts[k].at <= parts[k].at + parts[k].Keeps() <= |tokens|
  {
    if parts == [] then []
    else
      var last := parts[|parts| - 1];
      Output(tokens, parts[..|parts| - 1]) + tokens[last.at..last.at + last.Keeps()]
  }

  ghost predicate Cleaned(lex: Lexicon, tokens: seq<string>, parts: seq<Part>, out: seq<string>) {
    Scan(lex, tokens, parts, |tokens|) && out == Output(tokens, parts)
  }

  /** safe_cleanup_text on the tokens of the text. */
  method SafeCleanupText(lex: Lexicon, tokens: seq<string>) returns (out: seq<string>)
    ensures exists parts :: Cleaned(lex, tokens, parts, out)
  {
    var keys := Keys(lex.key, tokens);
    ghost var parts: seq<Part> := [];
    out := [];
    var index := 0;
    while index < |tokens|
      invariant index <= |tokens| && Scan(lex, tokens, parts, index)
      invariant out == Output(tokens, parts)
      decreases |tokens| - index
    {
      ghost var part;
      if IsFiller(lex, tokens, index) {
        part := Skip(index);
      } else {
        var repeatedWidth := RepeatedWidth(keys, index);
        part := if repeatedWidth > 0 then Block(index, repeatedWidth) else Single(index);
        out := out + tokens[index..index + (if repeatedWidth > 0 then repeatedWidth else 1)];
        index := index + (if repeatedWidth > 0 then 2 * repeatedWidth else 1) - 1;
      }
      index := index + 1;
      ScanOneMore(lex, tokens, parts, part);
      parts := parts + [part];
    }
    assert Cleaned(lex, tokens, parts, out);
  }

  lemma ScanOneMore(lex: Lexicon, tokens: seq<string>, parts: seq<Part>, part: Part)
    requires Scan(lex, tokens, parts, part.at) && Right(lex, tokens, part)
    ensures Scan(lex, tokens, parts + [part], part.End())
    ensures Output(tokens, parts + [part]) == Output(tokens, parts) + tokens[part.at..part.at + part.Keeps()]
  {
    assert (parts + [part])[..|parts|] == parts;
  }

  // ---------------------------------------------------------------- laws

  /** The tokens determine the scan: no other sequence of parts satisfies the rules. */
  lemma {:induction false} ScanIsUnique(lex: Lexicon, tokens: seq<string>, p: seq<Part>, q: seq<Part>, to: nat, k: nat)
    requires Scan(lex, tokens, p, to) && Scan(lex, tokens, q, to) && k <= |p| && k <= |q|
    ensures p[..k] == q[..k]
  {
    if k > 0 {
      ScanIsUnique(lex, tokens, p, q, to, k - 1);
      PartStart(p, to, k - 1);
      PartStart(q, to, k - 1);
      SamePart(lex, tokens, p[k - 1], q[k - 1]);
      hide Right, Tiles, EndOf;
      assert p[..k] == p[..k - 1] + [p[k - 1]] && q[..k] == q[..k - 1] + [q[k - 1]];
    }
  }

  function EndOf(parts: seq<Part>): nat {
    if parts == [] then 0 else parts[|parts| - 1].End()
  }

  lemma {:induction false} PartStart(parts: seq<Part>, to: nat, k: nat)
    requires Tiles(parts, 0, to) && k < |parts|
    ensures parts[k].at == EndOf(parts[..k])
  {
    var p := parts[..|parts| - 1];
    if k < |p| {
      PartStart(p, parts[|p|].at, k);
      assert p[..k] == parts[..k];
    }
  }

  lemma SamePart(lex: Lexicon, tokens: seq<string>, p: Part, q: Part)
    requires p.at == q.at && Right(lex, tokens, p) && Right(lex, tokens, q)
    ensures p == q
  {
    var keys := Keys(lex.key, tokens);
    if p.Block? && q.Block? { WidthIsUnique(keys, p.at, p.width, q.width); }
    if p.Block? && q.Single? { WidthIsUnique(keys, p.at, p.width, 0); }
    if p.Single? && q.Block? { WidthIsUnique(keys, p.at, 0, q.width); }
  }

  lemma TilesEnd(parts: seq<Part>, to: nat)
    requires Tiles(parts, 0, to)
    ensures EndOf(parts) == to
  {
  }

  lemma NoLonger(lex: Lexicon, tokens: seq<string>, p: seq<Part>, q: seq<Part>)
    requires Scan(lex, tokens, p, |tokens|) && Scan(lex, tokens, q, |tokens|)
    ensures |p| >= |q|
  {
    assert p[..|p|] == p;
    if |p| < |q| {
      ScanIsUnique(lex, tokens, p, q, |tokens|, |p|);
      PartStart(q, |tokens|, |p|);
      TilesEnd(p, |tokens|);
    }
  }

  /** So cleanup is a function of the text. */
  lemma CleanupIsDetermined(lex: Lexicon, tokens: seq<string>, p: seq<Part>, a: seq<string>,
                            q: seq<Part>, b: seq<string>)
    requires Cleaned(lex, tokens, p, a) && Cleaned(lex, tokens, q, b)
    ensures p == q && a == b
  {
    NoLonger(lex, tokens, p, q);
    NoLonger(lex, tokens, q, p);
    ScanIsUnique(lex, tokens, p, q, |tokens|, |p|);
    assert p[..|p|] == p && q[..|q|] == q;
  }

  function Skipped(parts: seq<Part>): nat {
    if parts == [] then 0 else Skipped(parts[..|parts| - 1]) + (if parts[|parts| - 1].Skip? then 1 else 0)
  }

  function Singles(parts: seq<Part>): nat {
    if parts == [] then 0 else Singles(parts[..|parts| - 1]) + (if parts[|parts| - 1].Single? then 1 else 0)
  }

  function KeptInBlocks(parts: seq<Part>): nat {
    if parts == [] then 0
    else KeptInBlocks(parts[..|parts| - 1]) + (if parts[|parts| - 1].Block? then parts[|parts| - 1].width else 0)
  }

  /** n = fillers + singles + 2 x (kept in blocks), and the output holds the singles and
      one half of every block. */
  lemma {:induction false} TokensAccounted(lex: Lexicon, tokens: seq<string>, parts: seq<Part>, to: nat)
    requires Scan(lex, tokens, parts, to)
    ensures to == Skipped(parts) + Singles(parts) + 2 * KeptInBlocks(parts)
    ensures |Output(tokens, parts)| == Singles(parts) + KeptInBlocks(parts)
  {
    if parts != [] {
      TokensAccounted(lex, tokens, parts[..|parts| - 1], parts[|parts| - 1].at);
    }
  }

  /** Token j is a filler, or the second half of a block: it repeats a kept token of the
      same key, and a grammatical double does so only in a block of several words. */
  predicate Deletable(lex: Lexicon, tokens: seq<string>, part: Part, j: nat)
    requires j < |tokens|
  {
    || IsFiller(lex, tokens, j)
    || (&& part.Block? && part.at <= j - part.width < part.at + part.width
        && lex.key(tokens[j]) == lex.key(tokens[j - part.width])
        && (lex.key(tokens[j]) in DOUBLES ==> part.width >= 2))
  }

  lemma RepeatedKey(keys: seq<string>, at: nat, w: nat, j: nat)
    requires RepeatsAt(keys, at, w) && at + w <= j < at + 2 * w
    ensures keys[j] == keys[j - w]
  {
    assert keys[at..at + w][j - w - at] == keys[at + w..at + 2 * w][j - w - at];
  }

  lemma PartJustified(lex: Lexicon, tokens: seq<string>, part: Part, j: nat)
    requires Right(lex, tokens, part) && part.at + part.Keeps() <= j < part.End()
    ensures Deletable(lex, tokens, part, j)
  {
    if part.Block? {
      var keys, at, w := Keys(lex.key, tokens), part.at, part.width;
      RepeatedKey(keys, at, w, j);
      hide IsFiller, RepeatsAt;
    }
  }

  /** Every token is in one part; it is kept there or its deletion is justified. */
  lemma {:induction false} DeletionsAreJustified(lex: Lexicon, tokens: seq<string>, parts: seq<Part>, to: nat, j: nat)
    returns (k: nat)
    requires Scan(lex, tokens, parts, to) && j < to <= |tokens|
    ensures k < |parts| && parts[k].at <= j < parts[k].End()
    ensures j < parts[k].at + parts[k].Keeps() || Deletable(lex, tokens, parts[k], j)
  {
    hide Right, Deletable;
    var last := parts[|parts| - 1];
    if j < last.at {
      k := DeletionsAreJustified(lex, tokens, parts[..|parts| - 1], last.at, j);
    } else {
      k := |parts| - 1;
      if j >= last.at + last.Keeps() { PartJustified(lex, tokens, last, j); }
    }
  }

  // ---------------------------------------------------------------- order of words

  /** Distinct elements in the order they first occur. */
  function FirstOccurrences(s: seq<string>): seq<string> {
    if s == [] then []
    else
      var p := FirstOccurrences(s[..|s| - 1]);
      if s[|s| - 1] in p then p else p + [s[|s| - 1]]
  }

  function NonFillers(keys: seq<string>): seq<string> {
    if keys == [] then []
    else NonFillers(keys[..|keys| - 1]) + (if keys[|keys| - 1] in FILLERS then [] else [keys[|keys| - 1]])
  }

  function Order(keys: seq<string>): seq<string> {
    FirstOccurrences(NonFillers(keys))
  }

  /** Adding one key to an order. */
  function Note(order: seq<string>, k: string): seq<string> {
    if k in FILLERS || k in order then order else order + [k]
  }

  lemma OrderNote(s: seq<string>, k: string)
    ensures Order(s + [k]) == Note(Order(s), k)
  {
    assert (s + [k])[..|s + [k]| - 1] == s;
    var d := NonFillers(s);
    assert d + [] == d;
    assert (d + [k])[..|d + [k]| - 1] == d;
  }

  lemma {:induction false} OrderAppend(s: seq<string>, t: seq<string>, u: seq<string>)
    requires Order(s) == Order(t)
    ensures Order(s + u) == Order(t + u)
    ensures forall k :: k in u && k !in FILLERS ==> k in Order(s + u)
    ensures forall k :: k in Order(s) ==> k in Order(s + u)
  {
    hide Order;
    if u == [] {
      assert s + u == s && t + u == t;
    } else {
      var v, k := u[..|u| - 1], u[|u| - 1];
      OrderAppend(s, t, v);
      OrderNote(s + v, k);
      OrderNote(t + v, k);
      assert s + u == s + v + [k] && t + u == t + v + [k];
      assert forall x :: x in u ==> x in v || x == k;
    }
  }

  /** Keys already noted add nothing. */
  lemma {:induction false} OrderAbsorbs(s: seq<string>, u: seq<string>)
    requires forall k :: k in u && k !in FILLERS ==> k in Order(s)
    ensures Order(s + u) == Order(s)
  {
    hide Order;
    if u == [] {
      assert s + u == s;
    } else {
      var v, k := u[..|u| - 1], u[|u| - 1];
      OrderAbsorbs(s, v);
      OrderNote(s + v, k);
      assert s + u == s + v + [k];
    }
  }

  /** Cleanup never reorders: words other than fillers first occur in the same order. */
  lemma {:induction false} OrderIsKept(lex: Lexicon, tokens: seq<string>, parts: seq<Part>, to: nat)
    requires Scan(lex, tokens, parts, to) && to <= |tokens|
    ensures Order(Keys(lex.key, Output(tokens, parts))) == Order(Keys(lex.key, tokens[..to]))
  {
    if parts == [] {
      assert Keys(lex.key, tokens[..0]) == [] && Keys(lex.key, []) == [];
    } else {
      var p, last := parts[..|parts| - 1], parts[|parts| - 1];
      OrderIsKept(lex, tokens, p, last.at);
      PartKeepsOrder(lex, tokens, last, Keys(lex.key, Output(tokens, p)));
      OutputKeys(lex, tokens, p, last);
      assert p + [last] == parts;
    }
  }

  lemma OutputKeys(lex: Lexicon, tokens: seq<string>, p: seq<Part>, last: Part)
    requires Scan(lex, tokens, p, last.at) && Right(lex, tokens, last)
    ensures Right(lex, tokens, last) && Scan(lex, tokens, p + [last], last.End())
    ensures Keys(lex.key, Output(tokens, p + [last]))
         == Keys(lex.key, Output(tokens, p)) + Keys(lex.key, tokens)[last.at..last.at + last.Keeps()]
  {
    ScanOneMore(lex, tokens, p, last);
    hide Scan, Right, Output;
    KeysAppend(lex, Output(tokens, p), tokens[last.at..last.at + last.Keeps()]);
    assert Keys(lex.key, tokens[last.at..last.at + last.Keeps()])
        == Keys(lex.key, tokens)[last.at..last.at + last.Keeps()];
  }

  lemma KeysAppend(lex: Lexicon, a: seq<string>, b: seq<string>)
    ensures Keys(lex.key, a + b) == Keys(lex.key, a) + Keys(lex.key, b)
  {
  }

  lemma BlockKeepsOrder(keys: seq<string>, at: nat, w: nat, out: seq<string>)
    requires RepeatsAt(keys, at, w) && Order(out) == Order(keys[..at])
    ensures Order(out + keys[at..at + w]) == Order(keys[..at + 2 * w])
  {
    hide Order;
    var before, kept := keys[..at], keys[at..at + w];
    OrderAppend(out, before, kept);
    OrderAbsorbs(before + kept, kept);
    assert keys[..at + 2 * w] == before + kept + kept;
  }

  lemma PartKeepsOrder(lex: Lexicon, tokens: seq<string>, part: Part, out: seq<string>)
    requires Right(lex, tokens, part)
    requires Order(out) == Order(Keys(lex.key, tokens[..part.at]))
    ensures Order(out + Keys(lex.key, tokens)[part.at..part.at + part.Keeps()])
         == Order(Keys(lex.key, tokens[..part.End()]))
  {
    hide Order;
    var keys, at := Keys(lex.key, tokens), part.at;
    assert Keys(lex.key, tokens[..at]) == keys[..at];
    assert Keys(lex.key, tokens[..part.End()]) == keys[..part.End()];
    if part.Block? {
      BlockKeepsOrder(keys, at, part.width, out);
    } else {
      var k := keys[at];
      assert keys[..at + 1] == keys[..at] + [k];
      OrderNote(keys[..at], k);
      OrderNote(out, k);
      assert keys[at..at] == [] && out + [] == out && keys[at..at + 1] == [k];
    }
  }

  // ---------------------------------------------------------------- where cleanup changes nothing

  /** Cleanup leaves a text alone exactly when no token is a filler and no position has a
      repeat to remove. */
  lemma UnchangedIff(lex: Lexicon, tokens: seq<string>, parts: seq<Part>, out: seq<string>)
    requires Cleaned(lex, tokens, parts, out)
    ensures out == tokens <==>
              forall i :: 0 <= i < |tokens| ==> !IsFiller(lex, tokens, i) && IsWidth(Keys(lex.key, tokens), i, 0)
  {
    hide IsWidth, IsFiller;
    TokensAccounted(lex, tokens, parts, |tokens|);
    if forall i :: 0 <= i < |tokens| ==> !IsFiller(lex, tokens, i) && IsWidth(Keys(lex.key, tokens), i, 0) {
      AllSingles(lex, tokens, parts, |tokens|);
      assert tokens[..|tokens|] == tokens;
    } else if out == tokens {
      SinglesOnly(lex, tokens, parts, |tokens|);
      assert false;
    }
  }

  lemma {:induction false} AllSingles(lex: Lexicon, tokens: seq<string>, parts: seq<Part>, to: nat)
    requires Scan(lex, tokens, parts, to) && to <= |tokens|
    requires forall i :: 0 <= i < |tokens| ==> !IsFiller(lex, tokens, i) && IsWidth(Keys(lex.key, tokens), i, 0)
    ensures Output(tokens, parts) == tokens[..to]
  {
    if parts != [] {
      var p, last := parts[..|parts| - 1], parts[|parts| - 1];
      AllSingles(lex, tokens, p, last.at);
      assert tokens[..to] == tokens[..last.at] + [tokens[last.at]];
    }
  }

  lemma {:induction false} SinglesOnly(lex: Lexicon, tokens: seq<string>, parts: seq<Part>, to: nat)
    requires Scan(lex, tokens, parts, to) && to <= |tokens| && Skipped(parts) == 0 && KeptInBlocks(parts) == 0
    ensures forall i :: 0 <= i < to ==> !IsFiller(lex, tokens, i) && IsWidth(Keys(lex.key, tokens), i, 0)
  {
    if parts != [] {
      SinglesOnly(lex, tokens, parts[..|parts| - 1], parts[|parts| - 1].at);
    }
  }

  // ---------------------------------------------------------------- a second pass

  /** The positions the scan keeps, in order. */
  function KeptAt(parts: seq<Part>): seq<nat> {
    if parts == [] then []
    else
      var last := parts[|parts| - 1];
      KeptAt(parts[..|parts| - 1]) + PartAt(last)
  }

  function PartAt(part: Part): seq<nat> {
    seq(part.Keeps(), i requires 0 <= i < part.Keeps() => part.at + i)
  }

  /** The kept token number j is a filler, now that the one kept before it precedes it. */
  predicate FillerWhenKept(lex: Lexicon, tokens: seq<string>, kept: seq<nat>, j: nat)
    requires (forall i :: 0 <= i < |kept| ==> kept[i] < |tokens|) && j < |kept|
  {
    && lex.key(tokens[kept[j]]) in FILLERS
    && !lex.isAcronym(tokens[kept[j]])
    && !(lex.key(tokens[kept[j]]) == "ah" && j > 0 && lex.hasDigit(tokens[kept[j - 1]]))
  }

  /** The w tokens kept from number j on are followed by w with the same keys. */
  predicate RepeatsWhenKept(lex: Lexicon, tokens: seq<string>, kept: seq<nat>, j: nat, w: nat)
    requires forall i :: 0 <= i < |kept| ==> kept[i] < |tokens|
  {
    j + 2 * w <= |kept| && forall i :: j <= i < j + w ==> lex.key(tokens[kept[i]]) == lex.key(tokens[kept[i + w]])
  }

  /** The kept token number j has not become a filler, and starts no repeat except of a
      single grammatical double. */
  predicate SettledAt(lex: Lexicon, tokens: seq<string>, kept: seq<nat>, j: nat)
    requires (forall i :: 0 <= i < |kept| ==> kept[i] < |tokens|) && j < |kept|
  {
    && !FillerWhenKept(lex, tokens, kept, j)
    && (forall w :: 1 <= w <= MAX_WIDTH && RepeatsWhenKept(lex, tokens, kept, j, w) ==>
          w == 1 && lex.key(tokens[kept[j]]) in DOUBLES)
  }

  predicate Settled(lex: Lexicon, tokens: seq<string>, kept: seq<nat>)
    requires forall i :: 0 <= i < |kept| ==> kept[i] < |tokens|
  {
    forall j :: 0 <= j < |kept| ==> SettledAt(lex, tokens, kept, j)
  }

  predicate Picks(tokens: seq<string>, kept: seq<nat>, out: seq<string>) {
    |kept| == |out| && forall j :: 0 <= j < |kept| ==> kept[j] < |tokens| && out[j] == tokens[kept[j]]
  }

  lemma {:induction false} OutputPicks(tokens: seq<string>, parts: seq<Part>)
    requires forall k :: 0 <= k < |parts| ==> 0 <= parts[k].at <= parts[k].at + parts[k].Keeps() <= |tokens|
    ensures Picks(tokens, KeptAt(parts), Output(tokens, parts))
    decreases |parts|
  {
    if parts != [] {
      var p, last := parts[..|parts| - 1], parts[|parts| - 1];
      OutputPicks(tokens, p);
      PartPicks(tokens, last);
      PicksAppend(tokens, KeptAt(p), Output(tokens, p), PartAt(last), tokens[last.at..last.at + last.Keeps()]);
      hide Picks;
    }
  }

  lemma PartPicks(tokens: seq<string>, part: Part)
    requires part.at + part.Keeps() <= |tokens|
    ensures Picks(tokens, PartAt(part), tokens[part.at..part.at + part.Keeps()])
  {
  }

  lemma PicksAppend(tokens: seq<string>, kept: seq<nat>, out: seq<string>, more: seq<nat>, text: seq<string>)
    requires Picks(tokens, kept, out) && Picks(tokens, more, text)
    ensures Picks(tokens, kept + more, out + text)
  {
  }

  lemma RepeatsSame(lex: Lexicon, tokens: seq<string>, kept: seq<nat>, out: seq<string>, j: nat, w: nat)
    requires Picks(tokens, kept, out) && j < |kept|
    ensures RepeatsWhenKept(lex, tokens, kept, j, w) <==> RepeatsAt(Keys(lex.key, out), j, w)
  {
    var keys := Keys(lex.key, out);
    if j + 2 * w <= |kept| {
      if RepeatsAt(keys, j, w) {
        forall i | j <= i < j + w ensures lex.key(tokens[kept[i]]) == lex.key(tokens[kept[i + w]]) {
          assert keys[j..j + w][i - j] == keys[j + w..j + 2 * w][i - j];
        }
      }
    }
  }

  /** A second pass changes nothing if and only if, among the tokens the first one keeps,
      none is a filler after its kept predecessor and none starts a repeat to remove. */
  lemma SecondPassIff(lex: Lexicon, tokens: seq<string>, p: seq<Part>, a: seq<string>, q: seq<Part>, b: seq<string>)
    requires Cleaned(lex, tokens, p, a) && Cleaned(lex, a, q, b)
    ensures Picks(tokens, KeptAt(p), a)
    ensures b == a <==> Settled(lex, tokens, KeptAt(p))
  {
    OutputPicks(tokens, p);
    UnchangedIff(lex, a, q, b);
    hide Cleaned, KeptAt;
    forall j | 0 <= j < |a|
      ensures SettledAt(lex, tokens, KeptAt(p), j) <==> !IsFiller(lex, a, j) && IsWidth(Keys(lex.key, a), j, 0)
    {
      SettledAtIff(lex, tokens, KeptAt(p), a, j);
    }
    hide SettledAt, IsFiller, IsWidth;
  }

  lemma SettledAtIff(lex: Lexicon, tokens: seq<string>, kept: seq<nat>, out: seq<string>, j: nat)
    requires Picks(tokens, kept, out) && j < |kept|
    ensures SettledAt(lex, tokens, kept, j) <==> !IsFiller(lex, out, j) && IsWidth(Keys(lex.key, out), j, 0)
  {
    assert FillerWhenKept(lex, tokens, kept, j) <==> IsFiller(lex, out, j);
    forall w: nat ensures RepeatsWhenKept(lex, tokens, kept, j, w) <==> RepeatsAt(Keys(lex.key, out), j, w) {
      RepeatsSame(lex, tokens, kept, out, j, w);
    }
    hide FillerWhenKept, RepeatsWhenKept, IsFiller, RepeatsAt;
  }

  /** Cleanup is not idempotent: four equal words become two, and those become one. */
  lemma NotIdempotent(lex: Lexicon)
    requires lex.key("a") == "a"
    ensures Cleaned(lex, ["a", "a", "a", "a"], [Block(0, 2)], ["a", "a"])
    ensures Cleaned(lex, ["a", "a"], [Block(0, 1)], ["a"])
  {
    var four, two := ["a", "a", "a", "a"], ["a", "a"];
    assert Keys(lex.key, four) == four && Keys(lex.key, two) == two;
    assert four[0..2] == two && four[2..4] == two && two[0..1] == ["a"] && two[1..2] == ["a"];
    TwoBlock(lex, four, 2);
    TwoBlock(lex, two, 1);
  }

  lemma TwoBlock(lex: Lexicon, tokens: seq<string>, w: nat)
    requires 0 < w <= MAX_WIDTH && |tokens| == 2 * w && tokens[0] == "a" && lex.key("a") == "a"
    requires RepeatsAt(Keys(lex.key, tokens), 0, w)
    ensures Cleaned(lex, tokens, [Block(0, w)], tokens[..w])
  {
    var parts := [Block(0, w)];
    assert "a" !in FILLERS && "a" !in DOUBLES;
    assert parts[..0] == [];
    assert Output(tokens, []) == [];
    assert [] + tokens[0..w] == tokens[..w];
  }
}
