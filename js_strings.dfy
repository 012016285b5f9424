/**
 JavaScript's `s.split(" ")` and the joining of tokens with single spaces
 that a template literal such as `${a} ${b} ${c}` performs.
 */
module JsStrings {

  /** `s.split(" ")`: the maximal space-free pieces between single spaces.
      The empty string gives `[""]`, and two adjacent spaces give an empty
      token between them, as in JavaScript. */
  function Split(s: string): (r: seq<string>)
    ensures |r| == multiset(s)[' '] + 1
    ensures forall k :: 0 <= k < |r| ==> ' ' !in r[k]
  {
    if s == [] then [""]
    else
      var rest := Split(s[1..]);
      assert s == [s[0]] + s[1..];
      if s[0] == ' ' then [""] + rest
      else [[s[0]] + rest[0]] + rest[1..]
  }

  /** `tokens.join(" ")`. */
  function Join(tokens: seq<string>): string
  {
    if |tokens| == 0 then ""
    else if |tokens| == 1 then tokens[0]
    else tokens[0] + " " + Join(tokens[1..])
  }

  /** A leading space ends an empty first token. */
  lemma SplitLeadingSpace(tail: string)
    ensures Split([' '] + tail) == [""] + Split(tail)
  {
    assert ([' '] + tail)[1..] == tail;
  }

  /** A leading non-space character starts the first token. */
  lemma SplitLeadingChar(c: char, tail: string)
    requires c != ' '
    ensures Split([c] + tail) == [[c] + Split(tail)[0]] + Split(tail)[1..]
  {
    assert ([c] + tail)[1..] == tail;
  }

  /** A string without a space is a single token. */
  lemma {:induction false} SplitSpaceFree(t: string)
    requires ' ' !in t
    ensures Split(t) == [t]
  {
    if t != [] {
      assert t[0] in t;
      assert ' ' !in t[1..] by {
        forall k | 0 <= k < |t[1..]| ensures t[1..][k] != ' ' {
          assert t[1..][k] == t[k + 1];
        }
      }
      SplitSpaceFree(t[1..]);
      assert [t[0]] + t[1..] == t;
    }
  }

  /** A space-free prefix followed by a space splits off as the first token. */
  lemma {:induction false} SplitAtFirstSpace(t: string, u: string)
    requires ' ' !in t
    ensures Split(t + " " + u) == [t] + Split(u)
  {
    if t == [] {
      assert t + " " + u == [' '] + u;
      SplitLeadingSpace(u);
    } else {
      var rest := t[1..] + " " + u;
      assert t + " " + u == [t[0]] + rest;
      assert ' ' !in t[1..];
      SplitAtFirstSpace(t[1..], u);
      SplitLeadingChar(t[0], rest);
      assert [t[0]] + t[1..] == t;
    }
  }

  /** Splitting undoes joining, for a non-empty list of space-free tokens. */
  lemma {:induction false} SplitJoin(tokens: seq<string>)
    requires |tokens| > 0
    requires forall k :: 0 <= k < |tokens| ==> ' ' !in tokens[k]
    ensures Split(Join(tokens)) == tokens
  {
    if |tokens| == 1 {
      SplitSpaceFree(tokens[0]);
    } else {
      SplitJoin(tokens[1..]);
      SplitAtFirstSpace(tokens[0], Join(tokens[1..]));
      assert [tokens[0]] + tokens[1..] == tokens;
    }
  }

  /** Joining a token in front of a non-empty list puts one space between. */
  lemma JoinCons(t: string, rest: seq<string>)
    requires |rest| > 0
    ensures Join([t] + rest) == t + " " + Join(rest)
  {
    assert ([t] + rest)[1..] == rest;
  }

  /** Extending the first token extends the joined string at the front. */
  lemma JoinExtendFirst(c: char, rest: seq<string>)
    requires |rest| > 0
    ensures Join([[c] + rest[0]] + rest[1..]) == [c] + Join(rest)
  {
    if |rest| > 1 {
      JoinCons([c] + rest[0], rest[1..]);
      JoinCons(rest[0], rest[1..]);
      assert [rest[0]] + rest[1..] == rest;
    }
  }

  /** Joining undoes splitting: no character of the input is lost. */
  lemma {:induction false} JoinSplit(s: string)
    ensures Join(Split(s)) == s
  {
    if s != [] {
      var c, tail := s[0], s[1..];
      assert s == [c] + tail;
      JoinSplit(tail);
      if c == ' ' {
        SplitLeadingSpace(tail);
        JoinCons("", Split(tail));
      } else {
        SplitLeadingChar(c, tail);
        JoinExtendFirst(c, Split(tail));
      }
    }
  }
}
