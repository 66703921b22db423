/**
  The token scanner: a transaction's payload is a run of `KEY=VALUE*` or
  `KEY#VALUE$` tokens, each ending token optionally followed by whitespace.
  The two regular-expression searches of the source, `[=#]` and `[*$]\s*`,
  are written out as character scans; both search the whole remaining text
  from its first character.
*/
module Tokens {
  import opened Wrappers
  import opened Text
  import opened Errors

  type Pair = (string, string)

  /** The two character classes the scanner searches for: `[=#]` and `[*$]`. */
  datatype Kind = Separators | Endings

  predicate In(c: char, kind: Kind) {
    match kind
    case Separators => c == '=' || c == '#'
    case Endings => c == '*' || c == '$'
  }

  /** The leftmost index at or after i of a character of the given kind. */
  function Find(s: string, i: nat, kind: Kind): (r: Option<nat>)
    requires i <= |s|
    ensures r.Some? ==> i <= r.value < |s|
    decreases |s| - i
  {
    if i == |s| then None
    else if In(s[i], kind) then Some(i)
    else Find(s, i + 1, kind)
  }

  /** Find reports the leftmost match, or None exactly when nothing matches. */
  lemma {:induction false} FindLeftmost(s: string, i: nat, kind: Kind)
    requires i <= |s|
    ensures Find(s, i, kind).Some? ==> In(s[Find(s, i, kind).value], kind)
    ensures Find(s, i, kind).Some? ==> forall k :: i <= k < Find(s, i, kind).value ==> !In(s[k], kind)
    ensures Find(s, i, kind).None? ==> forall k :: i <= k < |s| ==> !In(s[k], kind)
    decreases |s| - i
  {
    if i < |s| && !In(s[i], kind) {
      FindLeftmost(s, i + 1, kind);
    }
  }

  /** Where the longest run of whitespace starting at i ends: what `\s*` consumes. */
  function SpaceEnd(s: string, i: nat): (j: nat)
    requires i <= |s|
    ensures i <= j <= |s|
    decreases |s| - i
  {
    if i < |s| && IsSpace(s[i]) then SpaceEnd(s, i + 1) else i
  }

  /** The run SpaceEnd skips is all whitespace, and it stops at the first other character. */
  lemma {:induction false} SpaceEndRun(s: string, i: nat)
    requires i <= |s|
    ensures forall k :: i <= k < SpaceEnd(s, i) ==> IsSpace(s[k])
    ensures SpaceEnd(s, i) < |s| ==> !IsSpace(s[SpaceEnd(s, i)])
    decreases |s| - i
  {
    if i < |s| && IsSpace(s[i]) {
      SpaceEndRun(s, i + 1);
    }
  }

  /**
    What the scanning loop makes of the text it has left, which may be
    empty. Both searches start at the first character of the remaining
    text; the key is the text before the separator, the value what lies
    between the separator and the ending token (empty when the ending token
    comes first), and the next pass starts after the ending token and the
    whitespace that follows it. A failure carries the remaining text.
  */
  function Scan(s: string): Result<seq<Pair>, TokenFault>
    decreases |s|
  {
    if s == "" then Ok([])
    else match Find(s, 0, Separators)
      case None => Err(MissingSeparator(s))
      case Some(separator) =>
        match Find(s, 0, Endings)
        case None => Err(MissingEndingToken(s))
        case Some(ending) =>
          Prefixed([(s[..separator], Slice(s, separator + 1, ending))], Scan(s[SpaceEnd(s, ending + 1)..]))
  }

  /** One pass of the loop, for text whose searches are known. */
  lemma ScanNext(s: string, separator: nat, ending: nat)
    requires Find(s, 0, Separators) == Some(separator)
    requires Find(s, 0, Endings) == Some(ending)
    ensures Scan(s) == Prefixed([(s[..separator], Slice(s, separator + 1, ending))], Scan(s[SpaceEnd(s, ending + 1)..]))
  {
  }

  /**
    What one pass of the loop finds in s: the key, the value, the index of
    the ending token, where the next pass starts and the text from there.
  */
  predicate Pass(s: string, key: string, value: string, ending: nat, next: nat, rest: string) {
    && Find(s, 0, Separators) == Some(|key|)
    && Find(s, 0, Endings) == Some(ending)
    && s[..|key|] == key
    && Slice(s, |key| + 1, ending) == value
    && SpaceEnd(s, ending + 1) == next
    && s[next..] == rest
  }

  lemma ScanPass(s: string, key: string, value: string, ending: nat, next: nat, rest: string)
    requires Pass(s, key, value, ending, next, rest)
    ensures Scan(s) == Prefixed([(key, value)], Scan(rest))
  {
    ScanNext(s, |key|, ending);
  }

  /** `parse_key_value_pairs`: an empty payload has no pairs at all. */
  function KeyValuePairs(s: string): Result<seq<Pair>, TokenFault> {
    if s == "" then Err(NoKeyValuePairs) else Scan(s)
  }

  method ParseKeyValuePairs(kvPairs: string) returns (r: Result<seq<Pair>, TokenFault>)
    ensures r == KeyValuePairs(kvPairs)
  {
    if kvPairs == "" {
      return Err(NoKeyValuePairs);
    }
    var testString := kvPairs;
    var result: seq<Pair> := [];
    assert Scan(kvPairs).Ok? ==> [] + Scan(kvPairs).value == Scan(kvPairs).value;
    while testString != ""
      invariant KeyValuePairs(kvPairs) == Prefixed(result, Scan(testString))
      decreases |testString|
    {
      var separator := Find(testString, 0, Separators);
      if separator.None? {
        return Err(MissingSeparator(testString));
      }
      var key := testString[..separator.value];
      var ending := Find(testString, 0, Endings);
      if ending.None? {
        return Err(MissingEndingToken(testString));
      }
      var value := Slice(testString, separator.value + 1, ending.value);
      var next := SpaceEnd(testString, ending.value + 1);
      PrefixedSnoc(result, (key, value), Scan(testString[next..]));
      result := result + [(key, value)];
      testString := testString[next..];
    }
    assert result + [] == result;
    return Ok(result);
  }

  predicate Avoids(s: string, kind: Kind) {
    forall k :: 0 <= k < |s| ==> !In(s[k], kind)
  }

  predicate AllSpace(s: string) {
    forall k :: 0 <= k < |s| ==> IsSpace(s[k])
  }

  /**
    A token as it may be written: a key, a separator, a value, an ending
    token and the whitespace after it.
  */
  datatype Token = Token(key: string, separator: char, value: string, ending: char, gap: string)

  function TokenText(t: Token): string {
    t.key + [t.separator] + t.value + [t.ending] + t.gap
  }

  function Render(tokens: seq<Token>): string
    decreases |tokens|
  {
    if tokens == [] then "" else TokenText(tokens[0]) + Render(tokens[1..])
  }

  function Contents(tokens: seq<Token>): (pairs: seq<Pair>)
    ensures |pairs| == |tokens|
  {
    seq(|tokens|, n requires 0 <= n < |tokens| => (tokens[n].key, tokens[n].value))
  }

  /**
    What a token must satisfy to be read back as written: the key has
    neither kind of delimiter and does not start with whitespace (the
    previous token's `\s*` would swallow it), the value has no ending token
    and the gap is whitespace only.
  */
  predicate Readable(t: Token) {
    && In(t.separator, Separators)
    && In(t.ending, Endings)
    && Avoids(t.key, Separators)
    && Avoids(t.key, Endings)
    && (t.key == "" || !IsSpace(t.key[0]))
    && Avoids(t.value, Endings)
    && AllSpace(t.gap)
  }

  lemma RenderStart(tokens: seq<Token>)
    requires tokens != [] ==> Readable(tokens[0])
    ensures Render(tokens) == "" || !IsSpace(Render(tokens)[0])
  {
    if tokens != [] {
      var t := tokens[0];
      assert Render(tokens)[0] == TokenText(t)[0];
      assert TokenText(t)[0] == if t.key == "" then t.separator else t.key[0];
    }
  }

  /** The three parts of `x + [c] + y`, seen through indexing and slicing. */
  lemma Around(x: string, c: char, y: string)
    ensures var s := x + [c] + y;
      && s[|x|] == c
      && s[..|x|] == x
      && s[|x| + 1..] == y
      && (forall k :: 0 <= k < |x| ==> s[k] == x[k])
      && (forall k :: 0 <= k < |y| ==> s[|x| + 1 + k] == y[k])
  {
  }

  /** A match with nothing matching before it, from i on, is what Find reports. */
  lemma {:induction false} FindIs(s: string, i: nat, m: nat, kind: Kind)
    requires i <= m < |s|
    requires In(s[m], kind)
    requires forall k :: i <= k < m ==> !In(s[k], kind)
    ensures Find(s, i, kind) == Some(m)
    decreases m - i
  {
    if i < m {
      FindIs(s, i + 1, m, kind);
    }
  }

  lemma FindAt(x: string, c: char, y: string, kind: Kind)
    requires Avoids(x, kind) && In(c, kind)
    ensures Find(x + [c] + y, 0, kind) == Some(|x|)
  {
    Around(x, c, y);
    FindIs(x + [c] + y, 0, |x|, kind);
  }

  lemma FindPast(x: string, c: char, y: string, kind: Kind, n: nat)
    requires Avoids(x, kind) && !In(c, kind)
    requires Find(y, 0, kind) == Some(n)
    ensures Find(x + [c] + y, 0, kind) == Some(|x| + 1 + n)
  {
    var s := x + [c] + y;
    var m := |x| + 1 + n;
    FindLeftmost(y, 0, kind);
    forall k | 0 <= k < m
      ensures !In(s[k], kind)
    {
      if k < |x| {
        assert s[k] == x[k];
      } else if k == |x| {
        assert s[k] == c;
      } else {
        assert s[k] == y[k - |x| - 1];
      }
    }
    assert s[m] == y[n];
    FindIs(s, 0, m, kind);
  }

  /**
    Both searches on `key + [separator] + value + [ending] + w`, and the
    pieces the loop cuts out of it.
  */
  lemma TokenSearches(key: string, separator: char, value: string, ending: char, w: string)
    requires Avoids(key, Separators) && Avoids(key, Endings) && Avoids(value, Endings)
    requires In(separator, Separators) && In(ending, Endings)
    ensures var s := key + [separator] + (value + [ending] + w);
      && Find(s, 0, Separators) == Some(|key|)
      && Find(s, 0, Endings) == Some(|key| + 1 + |value|)
      && s[..|key|] == key
      && Slice(s, |key| + 1, |key| + 1 + |value|) == value
      && s[|key| + 1 + |value| + 1..] == w
  {
    var u := value + [ending] + w;
    var s := key + [separator] + u;
    Around(key, separator, u);
    Around(value, ending, w);
    FindAt(key, separator, u, Separators);
    FindAt(value, ending, w, Endings);
    FindPast(key, separator, u, Endings, |value|);
    assert s[|key| + 1..|key| + 1 + |value|] == u[..|value|];
    assert s[|key| + 1 + |value| + 1..] == u[|value| + 1..];
  }

  lemma {:induction false} SpaceEndShift(x: string, w: string, i: nat)
    requires i <= |w|
    ensures SpaceEnd(x + w, |x| + i) == |x| + SpaceEnd(w, i)
    decreases |w| - i
  {
    if i < |w| {
      assert (x + w)[|x| + i] == w[i];
      SpaceEndShift(x, w, i + 1);
    }
  }

  lemma {:induction false} SpaceEndGap(gap: string, rest: string, i: nat)
    requires i <= |gap|
    requires AllSpace(gap)
    requires rest == "" || !IsSpace(rest[0])
    ensures SpaceEnd(gap + rest, i) == |gap|
    decreases |gap| - i
  {
    if i < |gap| {
      assert (gap + rest)[i] == gap[i];
      SpaceEndGap(gap, rest, i + 1);
    } else if rest != "" {
      assert (gap + rest)[i] == rest[0];
    }
  }

  /** A token followed by more text, grouped the ways its searches see it. */
  lemma TokenTextSplit(t: Token, rest: string)
    ensures TokenText(t) + rest == t.key + [t.separator] + (t.value + [t.ending] + (t.gap + rest))
    ensures TokenText(t) + rest == (t.key + [t.separator] + t.value + [t.ending]) + (t.gap + rest)
  {
  }

  /** The two searches in a readable token followed by more text, and the key and value they cut out. */
  lemma TokenFinds(t: Token, rest: string)
    requires Readable(t)
    ensures var s, ending := TokenText(t) + rest, |t.key| + 1 + |t.value|;
      && Find(s, 0, Separators) == Some(|t.key|)
      && Find(s, 0, Endings) == Some(ending)
      && s[..|t.key|] == t.key
      && Slice(s, |t.key| + 1, ending) == t.value
      && s[ending + 1..] == t.gap + rest
  {
    TokenTextSplit(t, rest);
    TokenSearches(t.key, t.separator, t.value, t.ending, t.gap + rest);
  }

  /** The whitespace skip after a readable token's ending lands on the text that follows the gap. */
  lemma TokenSkip(t: Token, rest: string)
    requires Readable(t)
    requires rest == "" || !IsSpace(rest[0])
    ensures var s, ending := TokenText(t) + rest, |t.key| + 1 + |t.value|;
      && SpaceEnd(s, ending + 1) == ending + 1 + |t.gap|
      && s[ending + 1 + |t.gap|..] == rest
  {
    var w := t.gap + rest;
    var head := t.key + [t.separator] + t.value + [t.ending];
    TokenTextSplit(t, rest);
    SpaceEndShift(head, w, 0);
    SpaceEndGap(t.gap, rest, 0);
    assert (head + w)[|head| + |t.gap|..] == rest;
  }

  /** What the loop finds in one readable token followed by text that does not start with whitespace. */
  lemma TokenScan(t: Token, rest: string)
    requires Readable(t)
    requires rest == "" || !IsSpace(rest[0])
    ensures var ending := |t.key| + 1 + |t.value|;
      Pass(TokenText(t) + rest, t.key, t.value, ending, ending + 1 + |t.gap|, rest)
  {
    TokenFinds(t, rest);
    TokenSkip(t, rest);
  }

  /** One readable token in front of text that does not start with whitespace is read as its pair. */
  lemma TokenNext(t: Token, rest: string)
    requires Readable(t)
    requires rest == "" || !IsSpace(rest[0])
    ensures Scan(TokenText(t) + rest) == Prefixed([(t.key, t.value)], Scan(rest))
  {
    var ending := |t.key| + 1 + |t.value|;
    TokenScan(t, rest);
    ScanPass(TokenText(t) + rest, t.key, t.value, ending, ending + 1 + |t.gap|, rest);
  }

  /** Readable tokens written one after the other are read back as their keys and values, in order. */
  lemma {:induction false} ScanRender(tokens: seq<Token>)
    requires forall n :: 0 <= n < |tokens| ==> Readable(tokens[n])
    ensures Scan(Render(tokens)) == Ok(Contents(tokens))
    decreases |tokens|
  {
    if tokens != [] {
      var rest := tokens[1..];
      assert Render(tokens) == TokenText(tokens[0]) + Render(rest);
      RenderStart(rest);
      TokenNext(tokens[0], Render(rest));
      ScanRender(rest);
      ContentsCons(tokens);
    }
  }

  lemma ContentsCons(tokens: seq<Token>)
    requires tokens != []
    ensures Contents(tokens) == [(tokens[0].key, tokens[0].value)] + Contents(tokens[1..])
  {
    var x := Contents(tokens);
    var y := [(tokens[0].key, tokens[0].value)] + Contents(tokens[1..]);
    forall n | 0 <= n < |x|
      ensures x[n] == y[n]
    {
      if n > 0 {
        assert tokens[1..][n - 1] == tokens[n];
      }
    }
    assert |x| == |y|;
  }

  lemma KeyValuePairsRender(tokens: seq<Token>)
    requires tokens != []
    requires forall n :: 0 <= n < |tokens| ==> Readable(tokens[n])
    ensures KeyValuePairs(Render(tokens)) == Ok(Contents(tokens))
  {
    ScanRender(tokens);
    assert |Render(tokens)| >= |TokenText(tokens[0])| > 0;
  }

  /** A pair the scanner can produce: the key has no separator and the value no ending token. */
  predicate ReadablePair(p: Pair) {
    Avoids(p.0, Separators) && Avoids(p.1, Endings)
  }

  /** The first pair of a pass is well formed. */
  lemma FirstPair(s: string, separator: nat, ending: nat)
    requires Find(s, 0, Separators) == Some(separator)
    requires Find(s, 0, Endings) == Some(ending)
    ensures ReadablePair((s[..separator], Slice(s, separator + 1, ending)))
  {
    FindLeftmost(s, 0, Separators);
    FindLeftmost(s, 0, Endings);
    var value := Slice(s, separator + 1, ending);
    if separator + 1 < ending {
      assert forall k :: 0 <= k < |value| ==> value[k] == s[separator + 1 + k];
    }
  }

  lemma {:induction false} ScanSound(s: string)
    ensures Scan(s).Ok? ==> forall n :: 0 <= n < |Scan(s).value| ==> ReadablePair(Scan(s).value[n])
    decreases |s|
  {
    if s != "" && Find(s, 0, Separators).Some? && Find(s, 0, Endings).Some? {
      var separator, ending := Find(s, 0, Separators).value, Find(s, 0, Endings).value;
      var rest := s[SpaceEnd(s, ending + 1)..];
      FirstPair(s, separator, ending);
      ScanSound(rest);
    }
  }

  /** Every key the source returns is free of separators and every value free of ending tokens. */
  lemma KeyValuePairsSound(s: string)
    ensures KeyValuePairs(s).Ok? ==>
      forall n :: 0 <= n < |KeyValuePairs(s).value| ==> ReadablePair(KeyValuePairs(s).value[n])
  {
    ScanSound(s);
  }

  /** r is what is left of s after some characters have been read. */
  predicate IsSuffix(r: string, s: string) {
    |r| <= |s| && s[|s| - |r|..] == r
  }

  /**
    What a failure reports: the remaining text, which is never empty; with
    no separator in it, or with a separator but no ending token.
  */
  lemma {:induction false} ScanFaults(s: string)
    ensures Scan(s).Err? ==> !Scan(s).error.NoKeyValuePairs?
    ensures Scan(s).Err? && Scan(s).error.MissingSeparator? ==>
      var r := Scan(s).error.remaining;
      r != "" && IsSuffix(r, s) && Avoids(r, Separators)
    ensures Scan(s).Err? && Scan(s).error.MissingEndingToken? ==>
      var r := Scan(s).error.remaining;
      r != "" && IsSuffix(r, s) && !Avoids(r, Separators) && Avoids(r, Endings)
    decreases |s|
  {
    if s != "" {
      assert s[|s| - |s|..] == s;
      FindLeftmost(s, 0, Separators);
      FindLeftmost(s, 0, Endings);
      if Find(s, 0, Separators).Some? && Find(s, 0, Endings).Some? {
        var rest := s[SpaceEnd(s, Find(s, 0, Endings).value + 1)..];
        ScanFaults(rest);
        if Scan(rest).Err? && !Scan(rest).error.NoKeyValuePairs? {
          var r := Scan(rest).error.remaining;
          assert s[|s| - |r|..] == rest[|rest| - |r|..];
        }
      }
    }
  }

  /** No pairs is reported exactly for the empty payload; the other failures name a non-empty remainder. */
  lemma KeyValuePairsFaults(s: string)
    ensures KeyValuePairs(s) == Err(NoKeyValuePairs) <==> s == ""
    ensures KeyValuePairs(s).Err? && KeyValuePairs(s).error.MissingSeparator? ==>
      var r := KeyValuePairs(s).error.remaining;
      r != "" && IsSuffix(r, s) && Avoids(r, Separators)
    ensures KeyValuePairs(s).Err? && KeyValuePairs(s).error.MissingEndingToken? ==>
      var r := KeyValuePairs(s).error.remaining;
      r != "" && IsSuffix(r, s) && !Avoids(r, Separators) && Avoids(r, Endings)
  {
    ScanFaults(s);
  }

  /** A payload with a separator but no ending token fails on its first pass, reporting all of it. */
  lemma NoEndingAtAll(s: string)
    requires Find(s, 0, Separators).Some?
    requires Avoids(s, Endings)
    ensures KeyValuePairs(s) == Err(MissingEndingToken(s))
  {
    FindLeftmost(s, 0, Endings);
  }

  /** After a readable token, text with a separator but no ending token is reported as it stands. */
  lemma TokenThenNoEnding(t: Token, rest: string)
    requires Readable(t)
    requires rest == "" || !IsSpace(rest[0])
    requires Find(rest, 0, Separators).Some?
    requires Avoids(rest, Endings)
    ensures KeyValuePairs(TokenText(t) + rest) == Err(MissingEndingToken(rest))
  {
    TokenNext(t, rest);
    NoEndingAtAll(rest);
  }

  /** A non-empty payload without any separator fails on its first pass, reporting all of it. */
  lemma NoSeparatorAtAll(s: string)
    requires s != ""
    requires Avoids(s, Separators)
    ensures KeyValuePairs(s) == Err(MissingSeparator(s))
  {
    FindLeftmost(s, 0, Separators);
  }

  /** The payloads of the source's own unit tests of `parse_key_value_pairs`, written as tokens. */
  lemma ExampleText()
    ensures Render([Token("12", '=', "Test", '*', " "), Token("13", '#', "Another test", '$', "")])
         == "12=Test* 13#Another test$"
  {
    var first, second := Token("12", '=', "Test", '*', " "), Token("13", '#', "Another test", '$', "");
    assert [first, second][1..] == [second];
    assert Render([second]) == TokenText(second);
  }

  lemma ExamplePairs()
    ensures KeyValuePairs("12=Test* 13#Another test$") == Ok([("12", "Test"), ("13", "Another test")])
  {
    var tokens := [Token("12", '=', "Test", '*', " "), Token("13", '#', "Another test", '$', "")];
    ExampleText();
    KeyValuePairsRender(tokens);
    assert Contents(tokens) == [("12", "Test"), ("13", "Another test")];
  }

  lemma ExampleMissingSeparator()
    ensures KeyValuePairs("12=Test* 13") == Err(MissingSeparator("13"))
  {
    var t := Token("12", '=', "Test", '*', " ");
    assert TokenText(t) + "13" == "12=Test* 13";
    TokenNext(t, "13");
    NoSeparatorAtAll("13");
  }

  lemma ExampleMissingEnding()
    ensures KeyValuePairs("12=Test* 13=This") == Err(MissingEndingToken("13=This"))
  {
    var t := Token("12", '=', "Test", '*', " ");
    assert TokenText(t) + "13=This" == "12=Test* 13=This";
    assert "13" + ['='] + "This" == "13=This";
    FindAt("13", '=', "This", Separators);
    TokenThenNoEnding(t, "13=This");
  }
}
