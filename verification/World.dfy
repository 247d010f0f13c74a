/** What the knob engine reads from outside: files, the random source, the regular-expression library
and the bracket expressions of `fnmatch`. Each is an arbitrary but fixed function. */
module World {
  import opened Text

  datatype World = World(
    files: map<string, string>,                  // the readable files and what they hold
    knobsrc: string -> seq<string>,              // glob("<dir>/*.knobsrc") for a directory
    random: (Option<nat>, nat) -> nat,           // i-th value of random() after seeding (None: never seeded)
    regex: (string, string) -> bool,             // regexec: does this expression match this name?
    compiles: string -> bool,                    // regcomp
    bracket: (string, string) -> bool,           // fnmatch of a pattern that starts with '['
    delimiters: string)                          // of the tokenizer: " \t\n" or "\r\n"

  const SPTBNL: string := " \t\n"

  /** `fnmatch(pattern, name, 0)`, section 2.13 of the POSIX.1-2017 Shell Command Language. */
  predicate Fnmatch(w: World, pattern: string, name: string)
    decreases |pattern| + |name|
  {
    if pattern == [] then name == []
    else if pattern[0] == '*' then
      Fnmatch(w, pattern[1..], name) || (name != [] && Fnmatch(w, pattern, name[1..]))
    else if pattern[0] == '[' then w.bracket(pattern, name)
    else if name == [] then false
    else if pattern[0] == '?' then Fnmatch(w, pattern[1..], name[1..])
    else if pattern[0] == '\\' then
      |pattern| > 1 && pattern[1] == name[0] && Fnmatch(w, pattern[2..], name[1..])
    else pattern[0] == name[0] && Fnmatch(w, pattern[1..], name[1..])
  }

  /** Does the knob pattern match this name? A leading '+' marks a regular expression. */
  predicate Matches(w: World, pattern: string, name: string) {
    if pattern != [] && pattern[0] == '+' then w.regex(pattern[1..], name) else Fnmatch(w, pattern, name)
  }

  /** A name that no matcher reads as a pattern. */
  predicate IsLiteral(name: string) {
    && (name != [] ==> name[0] != '+')
    && forall c | c in name :: c != '*' && c != '?' && c != '[' && c != '\\'
  }

  lemma {:induction false} FnmatchLiteral(w: World, p: string, name: string)
    requires forall c | c in p :: c != '*' && c != '?' && c != '[' && c != '\\'
    ensures Fnmatch(w, p, name) <==> p == name
  {
    if p != [] {
      assert p[0] in p;
      if name != [] {
        assert forall c | c in p[1..] :: c in p;
        FnmatchLiteral(w, p[1..], name[1..]);
        assert p == [p[0]] + p[1..] && name == [name[0]] + name[1..];
      }
    }
  }

  /** A literal name, used as a pattern, matches itself and nothing else. */
  lemma LiteralMatchesItself(w: World, p: string, name: string)
    requires IsLiteral(p)
    ensures Matches(w, p, name) <==> p == name
  {
    FnmatchLiteral(w, p, name);
  }

  /** What stands for one character: itself, any character, or the one behind a backslash. */
  datatype Element = Plain(c: char) | AnyOne | Escaped(c: char)

  predicate Accepts(e: Element, c: char) {
    e.AnyOne? || e.c == c
  }

  /** A character that may stand for itself has no other meaning. */
  ghost predicate ElementsOk(es: seq<Element>) {
    forall i | 0 <= i < |es| && es[i].Plain? :: es[i].c !in "*?[\\"
  }

  function SpelledOne(e: Element): string {
    match e
    case Plain(c) => [c]
    case AnyOne => "?"
    case Escaped(c) => ['\\', c]
  }

  function Spelled(es: seq<Element>): string {
    if es == [] then [] else SpelledOne(es[0]) + Spelled(es[1..])
  }

  /** The name begins with as many characters, each accepted by its element. */
  ghost predicate AllAccept(es: seq<Element>, name: string) {
    |es| <= |name| && forall i | 0 <= i < |es| :: Accepts(es[i], name[i])
  }

  /** A pattern that begins with such elements matches a name if and only if the name begins with characters that they
  accept, and the rest of the pattern matches the rest of the name. */
  lemma {:induction false} ElementsMatch(w: World, es: seq<Element>, p: string, name: string)
    requires ElementsOk(es)
    ensures Fnmatch(w, Spelled(es) + p, name) <==> AllAccept(es, name) && Fnmatch(w, p, name[|es|..])
    decreases |es|
  {
    hide AllAccept, Accepts, SpelledOne, Fnmatch;
    if es == [] {
      assert Spelled(es) + p == p && name[0..] == name;
      NoneToAccept(name);
    } else {
      var rest := Spelled(es[1..]) + p;
      assert Spelled(es) + p == SpelledOne(es[0]) + rest;
      FirstElement(w, es[0], rest, name);
      AcceptFirst(es, name);
      if name != [] {
        ElementsMatch(w, es[1..], p, name[1..]);
        if |es| <= |name| {
          assert name[1..][|es| - 1..] == name[|es|..];
        }
        TooShort(es[1..], name[1..]);
      }
    }
  }

  lemma NoneToAccept(name: string)
    ensures AllAccept([], name)
  {
  }

  lemma TooShort(es: seq<Element>, name: string)
    ensures AllAccept(es, name) ==> |es| <= |name|
  {
  }

  lemma AcceptFirst(es: seq<Element>, name: string)
    requires es != []
    ensures AllAccept(es, name) <==> name != [] && Accepts(es[0], name[0]) && AllAccept(es[1..], name[1..])
    ensures AllAccept(es, name) ==> |es| <= |name|
  {
    if name != [] && Accepts(es[0], name[0]) && AllAccept(es[1..], name[1..]) {
      forall i | 0 <= i < |es|
        ensures Accepts(es[i], name[i])
      {
        if i > 0 { assert es[i] == es[1..][i - 1] && name[i] == name[1..][i - 1]; }
      }
    }
  }

  lemma FirstElement(w: World, e: Element, rest: string, name: string)
    requires e.Plain? ==> e.c !in "*?[\\"
    ensures Fnmatch(w, SpelledOne(e) + rest, name) <==>
            name != [] && Accepts(e, name[0]) && Fnmatch(w, rest, name[1..])
  {
    var pattern := SpelledOne(e) + rest;
    match e
    case Plain(c) =>
      OneOfFour(c);
      assert pattern[0] == c && pattern[1..] == rest;
    case AnyOne =>
      assert pattern[0] == '?' && pattern[1..] == rest;
    case Escaped(c) =>
      assert pattern[0] == '\\' && pattern[1] == c && pattern[2..] == rest;
  }

  lemma OneOfFour(c: char)
    ensures c in "*?[\\" <==> c == '*' || c == '?' || c == '[' || c == '\\'
  {
    var four := "*?[\\";
    assert four[0] == '*' && four[1] == '?' && four[2] == '[' && four[3] == '\\';
  }

  /** A pattern made of such elements only, and not marked as a regular expression, matches exactly the names of the
  same length whose characters are accepted one by one. */
  lemma ElementsMatchAlone(w: World, es: seq<Element>, name: string)
    requires ElementsOk(es) && (es != [] && es[0].Plain? ==> es[0].c != '+')
    ensures Matches(w, Spelled(es), name) <==> |es| == |name| && forall i | 0 <= i < |es| :: Accepts(es[i], name[i])
  {
    FirstIsUnmarked(es);
    ElementsMatch(w, es, [], name);
    assert Spelled(es) + [] == Spelled(es);
  }

  lemma FirstIsUnmarked(es: seq<Element>)
    requires es != [] && es[0].Plain? ==> es[0].c != '+'
    ensures Spelled(es) != [] ==> Spelled(es)[0] != '+'
  {
  }

  /** A name with a backslash in front of every character. */
  function Quoted(name: string): string {
    if name == [] then [] else ['\\', name[0]] + Quoted(name[1..])
  }

  /** It matches exactly that name, whatever characters the name has. */
  lemma QuotedMatchesItself(w: World, p: string, name: string)
    ensures Matches(w, Quoted(p), name) <==> p == name
  {
    var es := QuotedElements(p);
    ElementsMatchAlone(w, es, name);
  }

  lemma {:induction false} QuotedElements(p: string) returns (es: seq<Element>)
    ensures Spelled(es) == Quoted(p) && |es| == |p| && forall i | 0 <= i < |es| :: es[i] == Escaped(p[i])
  {
    if p == [] {
      es := [];
    } else {
      var rest := QuotedElements(p[1..]);
      es := [Escaped(p[0])] + rest;
      assert es[1..] == rest;
    }
  }

  /** A bracket expression is left to the library; a backslash with nothing behind it matches nothing. */
  lemma OtherPatterns(w: World, rest: string, name: string)
    ensures Fnmatch(w, "[" + rest, name) <==> w.bracket("[" + rest, name)
    ensures !Fnmatch(w, "\\", name)
  {
  }

  /** A pattern marked by a leading '+' is a regular expression. */
  lemma MarkedIsRegular(w: World, expression: string, name: string)
    ensures Matches(w, "+" + expression, name) <==> w.regex(expression, name)
  {
    assert ("+" + expression)[1..] == expression;
  }

  /** A star stands for any stretch of characters, the empty one included. */
  lemma {:induction false} StarMatchesAnyPrefix(w: World, p: string, name: string)
    ensures Fnmatch(w, ['*'] + p, name) <==> exists k :: 0 <= k <= |name| && Fnmatch(w, p, name[k..])
    decreases |name|
  {
    var star := ['*'] + p;
    assert star[1..] == p && name[0..] == name;
    if name != [] {
      StarMatchesAnyPrefix(w, p, name[1..]);
      forall k | 1 <= k <= |name|
        ensures name[k..] == name[1..][k - 1..]
      {
      }
      if Fnmatch(w, star, name[1..]) {
        var k :| 0 <= k <= |name| - 1 && Fnmatch(w, p, name[1..][k..]);
        assert name[k + 1..] == name[1..][k..];
      }
    }
  }
}
