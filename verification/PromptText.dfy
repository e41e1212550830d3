/** The placeholder syntax of hub/prompt_manager.py: a placeholder is a name made of word characters
    between double braces.  Which characters are word characters is a parameter, `word`; it is
    only assumed that braces are none. */
module PromptText {

  type Words = char -> bool

  ghost predicate Usable(word: Words) {
    !word('{') && !word('}')
  }

  datatype Piece = Literal(c: char) | Placeholder(name: string)

  predicate IsName(word: Words, name: string) {
    name != "" && forall i :: 0 <= i < |name| ==> word(name[i])
  }

  function Braced(name: string): string {
    "{{" + name + "}}"
  }

  /** `text` starts with the placeholder of this name. */
  predicate StartsWith(word: Words, text: string, name: string) {
    IsName(word, name) && Braced(name) <= text
  }

  // ---------------------------------------------------------------------
  // Scanning
  // ---------------------------------------------------------------------

  /** The longest run of word characters at the start. */
  function WordPrefix(word: Words, s: string): (r: string)
    ensures r <= s && (forall i :: 0 <= i < |r| ==> word(r[i])) && (|r| < |s| ==> !word(s[|r|]))
  {
    if s == "" || !word(s[0]) then "" else [s[0]] + WordPrefix(word, s[1..])
  }

  /** The name of the placeholder at the start of `text`, or the empty string if there is none. */
  function NameAt(word: Words, text: string): (name: string)
    ensures name != "" ==> StartsWith(word, text, name)
  {
    if |text| < 5 || text[..2] != "{{" then ""
    else
      var name := WordPrefix(word, text[2..]);
      if name != "" && Braced(name) <= text then name else ""
  }

  /** The regular expression's non-overlapping matches from left to right, and what is between them. */
  function Scan(word: Words, text: string): seq<Piece> {
    if text == "" then []
    else
      var name := NameAt(word, text);
      if name == "" then [Literal(text[0])] + Scan(word, text[1..])
      else [Placeholder(name)] + Scan(word, text[|name| + 4..])
  }

  function PrintPiece(p: Piece): string {
    match p case Literal(c) => [c] case Placeholder(name) => Braced(name)
  }

  function Print(pieces: seq<Piece>): string {
    if pieces == [] then "" else PrintPiece(pieces[0]) + Print(pieces[1..])
  }

  lemma PrintCons(p: Piece, rest: seq<Piece>)
    ensures Print([p] + rest) == PrintPiece(p) + Print(rest)
  {
    assert ([p] + rest)[1..] == rest;
  }

  lemma {:induction false} PrintJoined(left: seq<Piece>, right: seq<Piece>)
    ensures Print(left + right) == Print(left) + Print(right)
  {
    if left == [] {
      assert left + right == right;
    } else {
      assert (left + right)[1..] == left[1..] + right;
      PrintJoined(left[1..], right);
    }
  }

  lemma {:induction false} WordPrefixStops(word: Words, name: string, stop: char, rest: string)
    requires (forall i :: 0 <= i < |name| ==> word(name[i])) && !word(stop)
    ensures WordPrefix(word, name + [stop] + rest) == name
  {
    var s := name + [stop] + rest;
    if name != "" {
      assert s[1..] == name[1..] + [stop] + rest;
      WordPrefixStops(word, name[1..], stop, rest);
    }
  }

  lemma NameAtFindsIt(word: Words, text: string, name: string)
    requires Usable(word) && StartsWith(word, text, name)
    ensures NameAt(word, text) == name
  {
    var rest := text[|name| + 4..];
    assert text == Braced(name) + rest;
    assert text[2..] == name + ['}'] + ("}" + rest);
    WordPrefixStops(word, name, '}', "}" + rest);
  }

  ghost predicate NoneStarts(word: Words, text: string) {
    forall name :: !StartsWith(word, text, name)
  }

  /** A decomposition of a text into literals and placeholders in which no literal character starts
      a placeholder of the text that follows it. */
  ghost predicate Maximal(word: Words, pieces: seq<Piece>) {
    pieces != [] ==>
      && (match pieces[0]
          case Literal(_) => NoneStarts(word, Print(pieces))
          case Placeholder(name) => IsName(word, name))
      && Maximal(word, pieces[1..])
  }

  /** Printing the scanned pieces gives back the text, character by character. */
  lemma {:induction false} ScanPrints(word: Words, text: string)
    ensures Print(Scan(word, text)) == text
  {
    if text != "" {
      var name := NameAt(word, text);
      if name == "" {
        ScanPrints(word, text[1..]);
        PrintCons(Literal(text[0]), Scan(word, text[1..]));
      } else {
        ScanPrints(word, text[|name| + 4..]);
        PrintCons(Placeholder(name), Scan(word, text[|name| + 4..]));
      }
    }
  }

  lemma NoNameNoStart(word: Words, text: string)
    requires Usable(word) && NameAt(word, text) == ""
    ensures NoneStarts(word, text)
  {
    forall name ensures !StartsWith(word, text, name) {
      if StartsWith(word, text, name) { NameAtFindsIt(word, text, name); }
    }
  }

  /** The scan leaves no placeholder among the literals, */
  lemma {:induction false} ScanIsMaximal(word: Words, text: string)
    requires Usable(word)
    ensures Maximal(word, Scan(word, text))
  {
    if text != "" {
      var name := NameAt(word, text);
      ScanPrints(word, text);
      if name == "" {
        ScanIsMaximal(word, text[1..]);
        assert Scan(word, text)[1..] == Scan(word, text[1..]);
        NoNameNoStart(word, text);
      } else {
        ScanIsMaximal(word, text[|name| + 4..]);
        assert Scan(word, text)[1..] == Scan(word, text[|name| + 4..]);
      }
    }
  }

  /** ... and it is the only decomposition of the text with those two properties. */
  lemma {:induction false} ScanIsUnique(word: Words, pieces: seq<Piece>)
    requires Usable(word) && Maximal(word, pieces)
    ensures Scan(word, Print(pieces)) == pieces
  {
    if pieces != [] {
      ScanIsUnique(word, pieces[1..]);
      match pieces[0] {
        case Literal(c) =>
          LiteralScanned(word, c, Print(pieces[1..]));
        case Placeholder(name) =>
          PlaceholderScanned(word, name, Print(pieces[1..]));
      }
      assert [pieces[0]] + pieces[1..] == pieces;
    }
  }

  lemma StartsStill(word: Words, text: string, rest: string)
    requires NoneStarts(word, text + rest)
    ensures NoneStarts(word, text)
  {
    forall name ensures !StartsWith(word, text, name) {
      if StartsWith(word, text, name) {
        assert StartsWith(word, text + rest, name);
      }
    }
  }

  /** What comes before and after a piece is a decomposition of the same kind. */
  lemma {:induction false} MaximalSplits(word: Words, pieces: seq<Piece>, i: nat)
    requires Maximal(word, pieces) && i < |pieces|
    ensures Maximal(word, pieces[..i]) && Maximal(word, pieces[i + 1..])
    decreases i
  {
    if i > 0 {
      MaximalSplits(word, pieces[1..], i - 1);
      assert pieces[..i][1..] == pieces[1..][..i - 1];
      assert pieces[i + 1..] == pieces[1..][i..];
      assert pieces == pieces[..i] + pieces[i..];
      PrintJoined(pieces[..i], pieces[i..]);
      if pieces[0].Literal? {
        StartsStill(word, Print(pieces[..i]), Print(pieces[i..]));
      }
    }
  }

  lemma LiteralScanned(word: Words, c: char, rest: string)
    requires NoneStarts(word, [c] + rest)
    ensures Scan(word, [c] + rest) == [Literal(c)] + Scan(word, rest)
  {
    var text := [c] + rest;
    assert text[1..] == rest;
    assert NameAt(word, text) == "";
  }

  lemma PlaceholderScanned(word: Words, name: string, rest: string)
    requires Usable(word) && IsName(word, name)
    ensures Scan(word, Braced(name) + rest) == [Placeholder(name)] + Scan(word, rest)
  {
    var text := Braced(name) + rest;
    assert StartsWith(word, text, name);
    NameAtFindsIt(word, text, name);
    assert text[|name| + 4..] == rest;
  }

  // ---------------------------------------------------------------------
  // Filling in
  // ---------------------------------------------------------------------

  /** Each placeholder replaced by its value, or left as it is when it has none.  The values are
      copied, not scanned. */
  function Fill(pieces: seq<Piece>, values: map<string, string>): string {
    if pieces == [] then ""
    else
      (match pieces[0]
       case Literal(c) => [c]
       case Placeholder(name) => if name in values then values[name] else Braced(name))
      + Fill(pieces[1..], values)
  }

  /** The names found, in the order of their first occurrence. */
  function Names(pieces: seq<Piece>): (r: seq<string>)
    ensures forall n :: n in r <==> Placeholder(n) in pieces
    ensures forall i, j :: 0 <= i < j < |r| ==> r[i] != r[j]
  {
    if pieces == [] then []
    else
      var last := pieces[|pieces| - 1];
      var init := Names(pieces[..|pieces| - 1]);
      assert pieces == pieces[..|pieces| - 1] + [last];
      if last.Placeholder? && last.name !in init then init + [last.name] else init
  }

  /** One name is found before another. */
  ghost predicate FoundFirst(pieces: seq<Piece>, n: string, m: string) {
    exists k :: 0 <= k < |pieces| && pieces[k] == Placeholder(n) && Placeholder(m) !in pieces[..k + 1]
  }

  /** The names come in the order in which they first occur. */
  lemma {:induction false} NamesInOrder(pieces: seq<Piece>)
    ensures forall i, j :: 0 <= i < j < |Names(pieces)| ==> FoundFirst(pieces, Names(pieces)[i], Names(pieces)[j])
    decreases |pieces|
  {
    if pieces != [] {
      var last, init := pieces[|pieces| - 1], pieces[..|pieces| - 1];
      assert pieces == init + [last];
      NamesInOrder(init);
      var names := Names(pieces);
      forall i, j | 0 <= i < j < |names| ensures FoundFirst(pieces, names[i], names[j]) {
        if j < |Names(init)| {
          assert FoundFirst(init, names[i], names[j]);
          var k :| 0 <= k < |init| && init[k] == Placeholder(names[i]) && Placeholder(names[j]) !in init[..k + 1];
          assert pieces[..k + 1] == init[..k + 1];
        } else {
          assert Placeholder(names[i]) in init && Placeholder(names[j]) !in init;
          var k :| 0 <= k < |init| && init[k] == Placeholder(names[i]);
          assert pieces[..k + 1] == init[..k + 1];
        }
      }
    }
  }

  lemma {:induction false} FillJoined(left: seq<Piece>, right: seq<Piece>, values: map<string, string>)
    ensures Fill(left + right, values) == Fill(left, values) + Fill(right, values)
  {
    if left == [] {
      assert left + right == right;
    } else {
      assert (left + right)[1..] == left[1..] + right;
      FillJoined(left[1..], right, values);
    }
  }

  lemma FilledAround(pieces: seq<Piece>, i: nat, values: map<string, string>)
    requires i < |pieces| && pieces[i].Placeholder? && pieces[i].name in values
    ensures Print(pieces) == Print(pieces[..i]) + Braced(pieces[i].name) + Print(pieces[i + 1..])
    ensures Fill(pieces, values) == Fill(pieces[..i], values) + values[pieces[i].name] + Fill(pieces[i + 1..], values)
  {
    assert pieces == pieces[..i] + pieces[i..];
    FillJoined(pieces[..i], pieces[i..], values);
    PrintJoined(pieces[..i], pieces[i..]);
    assert pieces[i..][1..] == pieces[i + 1..];
  }

  /** Around the `i`-th piece, a placeholder that has a value, the text and its rendering fall into the
      same three parts: the text before it filled in, the value itself, the text after it filled in. */
  ghost predicate InsertedAt(word: Words, text: string, i: nat, values: map<string, string>) {
    var pieces := Scan(word, text);
    && i < |pieces| && pieces[i].Placeholder? && pieces[i].name in values
    && var before, after := Print(pieces[..i]), Print(pieces[i + 1..]);
    && text == before + Braced(pieces[i].name) + after
    && Fill(pieces, values) ==
         Fill(Scan(word, before), values) + values[pieces[i].name] + Fill(Scan(word, after), values)
  }

  /** Values are inserted as they stand, even where they look like placeholders that have a value, at
      every placeholder of any text. */
  lemma ValuesAreNotRescanned(word: Words, text: string, values: map<string, string>)
    requires Usable(word)
    ensures var pieces := Scan(word, text);
      forall i :: 0 <= i < |pieces| && pieces[i].Placeholder? && pieces[i].name in values ==>
        InsertedAt(word, text, i, values)
  {
    var pieces := Scan(word, text);
    ScanPrints(word, text);
    ScanIsMaximal(word, text);
    forall i | 0 <= i < |pieces| && pieces[i].Placeholder? && pieces[i].name in values
      ensures InsertedAt(word, text, i, values)
    {
      MaximalSplits(word, pieces, i);
      ScanIsUnique(word, pieces[..i]);
      ScanIsUnique(word, pieces[i + 1..]);
      FilledAround(pieces, i, values);
    }
  }

  /** A text in which every placeholder stands for itself comes out unchanged. */
  lemma {:induction false} FillWithNothing(pieces: seq<Piece>, values: map<string, string>)
    requires forall n :: n in values && Placeholder(n) in pieces ==> values[n] == Braced(n)
    ensures Fill(pieces, values) == Print(pieces)
  {
    if pieces != [] {
      assert pieces == [pieces[0]] + pieces[1..];
      if pieces[0].Placeholder? && pieces[0].name in values {
        assert Placeholder(pieces[0].name) in pieces;
      }
      FillWithNothing(pieces[1..], values);
    }
  }

  /** Only the values of names that occur matter. */
  lemma {:induction false} FillDependsOnNames(pieces: seq<Piece>, v: map<string, string>, w: map<string, string>)
    requires forall n :: Placeholder(n) in pieces ==> (n in v <==> n in w) && (n in v ==> v[n] == w[n])
    ensures Fill(pieces, v) == Fill(pieces, w)
  {
    if pieces != [] {
      assert pieces == [pieces[0]] + pieces[1..];
      if pieces[0].Placeholder? {
        assert Placeholder(pieces[0].name) in pieces;
      }
      FillDependsOnNames(pieces[1..], v, w);
    }
  }
}
