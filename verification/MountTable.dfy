/**
 How a mounted overlay is found in `/proc/mounts`: the kernel writes some characters of a
 name in octal, and Python splits a line at whitespace the kernel leaves as it is.
 */
module MountTable {

  /** What the kernel does not write plainly in a mount table. */
  predicate IsEscaped(c: char) {
    c == ' ' || c == '\t' || c == '\n' || c == '\\'
  }

  /** What `str.split()` separates words by. */
  predicate IsSpace(c: char) {
    c == ' ' || '\t' <= c <= '\r' || '\U{1c}' <= c <= '\U{1f}' || c == '\U{85}' || c == '\U{a0}' || c == '\U{1680}'
    || '\U{2000}' <= c <= '\U{200a}' || c == '\U{2028}' || c == '\U{2029}' || c == '\U{202f}' || c == '\U{205f}'
    || c == '\U{3000}'
  }

  function Octal(c: char): (s: string)
    requires IsEscaped(c)
    ensures |s| == 4 && forall d | d in s :: !IsSpace(d)
  {
    if c == ' ' then "\\040" else if c == '\t' then "\\011" else if c == '\n' then "\\012" else "\\134"
  }

  function Escaped(s: string): string {
    if s == "" then "" else (if IsEscaped(s[0]) then Octal(s[0]) else [s[0]]) + Escaped(s[1..])
  }

  /** The line of an overlay called `name` on `target`. */
  function Entry(name: string, target: string, options: string): string {
    Escaped(name) + " " + (Escaped(target) + " " + ("overlay" + " " + options))
  }

  function WordLength(s: string): (n: nat)
    ensures n <= |s| && (forall i | 0 <= i < n :: !IsSpace(s[i])) && (n < |s| ==> IsSpace(s[n]))
  {
    if s == "" || IsSpace(s[0]) then 0 else 1 + WordLength(s[1..])
  }

  /** `s.split()`. */
  function Words(s: string): (words: seq<string>)
    ensures forall w | w in words :: w != "" && Spaceless(w)
    decreases |s|
  {
    if s == "" then []
    else if IsSpace(s[0]) then Words(s[1..])
    else [s[..WordLength(s)]] + Words(s[WordLength(s)..])
  }

  /** The test of one line: its second word is the directory, its third the type. */
  predicate Matches(words: seq<string>, target: string) {
    3 <= |words| && words[1] == target && words[2] == "overlay"
  }

  predicate Spaceless(s: string) {
    forall c | c in s :: !IsSpace(c)
  }

  /** Text the mount table shows as one word that reads as it was. */
  predicate Plain(s: string) {
    Spaceless(s) && '\\' !in s
  }

  /**
   When the mount of an overlay called `name` is found on `target`: both must come out of
   the table as the one word they are, unless the name itself spells a matching line.
   */
  predicate Recognised(name: string, target: string) {
    var words := Words(Escaped(name));
    if |words| == 1 then Plain(target) else Matches(words, target)
  }

  lemma WordLengthIs(s: string, n: nat)
    requires n <= |s| && (forall i | 0 <= i < n :: !IsSpace(s[i])) && (n < |s| ==> IsSpace(s[n]))
    ensures WordLength(s) == n
  {
  }

  lemma {:induction false} WordsOfTwo(a: string, b: string)
    ensures Words(a + " " + b) == Words(a) + Words(b)
    decreases |a|
  {
    var s := a + " " + b;
    if a == "" {
      assert s[1..] == b;
    } else if IsSpace(a[0]) {
      assert s[1..] == a[1..] + " " + b;
      WordsOfTwo(a[1..], b);
    } else {
      var n := WordLength(a);
      WordLengthIs(s, n);
      assert s[..n] == a[..n] && s[n..] == a[n..] + " " + b;
      WordsOfTwo(a[n..], b);
      assert [a[..n]] + (Words(a[n..]) + Words(b)) == [a[..n]] + Words(a[n..]) + Words(b);
    }
  }

  lemma WordsOfPlain(s: string)
    requires s != "" && Spaceless(s)
    ensures Words(s) == [s]
  {
    WordLengthIs(s, |s|);
    assert s[..|s|] == s && !IsSpace(s[0]);
  }

  /** Escaping keeps plain text, lengthens any other that has no space, and leaves the first character if it can. */
  lemma {:induction false} EscapedText(s: string)
    ensures |s| <= |Escaped(s)|
    ensures '\\' in s ==> |s| < |Escaped(s)|
    ensures Plain(s) ==> Escaped(s) == s
    ensures Spaceless(s) ==> Spaceless(Escaped(s))
    ensures s != "" && !IsEscaped(s[0]) ==> Escaped(s)[0] == s[0]
  {
    if s != "" {
      assert s == [s[0]] + s[1..];
      EscapedText(s[1..]);
      assert s[0] in s && forall c | c in s[1..] :: c in s;
      assert IsEscaped(s[0]) ==> IsSpace(s[0]) || s[0] == '\\';
    }
  }

  lemma FirstWord(s: string)
    requires s != "" && !IsSpace(s[0])
    ensures Words(s) != [] && Words(s)[0][0] == s[0]
  {
  }

  /** The word of a plain target is the target; a target that is not plain is no word of its own. */
  lemma WordsOfTarget(target: string)
    requires target != "" && target[0] == '/'
    ensures var words := Words(Escaped(target));
            words != [] && words[0][0] == '/'
            && (if Plain(target) then words == [target] else target !in words)
  {
    EscapedText(target);
    FirstWord(Escaped(target));
    if Spaceless(target) {
      WordsOfPlain(Escaped(target));
    }
  }

  /** The line of a mounted overlay is recognised exactly on that condition, whatever its options. */
  lemma EntryIsFoundExactlyIf(name: string, target: string, options: string)
    requires target != "" && target[0] == '/'
    ensures Matches(Words(Entry(name, target, options)), target) <==> Recognised(name, target)
  {
    hide Words, Escaped, Plain;
    var n, t, o := Words(Escaped(name)), Words(Escaped(target)), Words(options);
    WordsOfTwo(Escaped(name), Escaped(target) + " " + ("overlay" + " " + options));
    WordsOfTwo(Escaped(target), "overlay" + " " + options);
    WordsOfTwo("overlay", options);
    WordsOfPlain("overlay");
    WordsOfTarget(target);
    assert Words(Entry(name, target, options)) == n + (t + (["overlay"] + o));
  }

  /** A name the kernel leaves as one word: then it is the target alone that decides. */
  lemma PlainNameLeavesItToTarget(name: string, target: string)
    requires name != "" && forall c | c in name :: IsSpace(c) ==> IsEscaped(c)
    ensures Recognised(name, target) <==> Plain(target)
  {
    EscapedName(name);
    WordsOfPlain(Escaped(name));
  }

  lemma {:induction false} EscapedName(name: string)
    requires forall c | c in name :: IsSpace(c) ==> IsEscaped(c)
    ensures Spaceless(Escaped(name)) && |name| <= |Escaped(name)|
  {
    if name != "" {
      EscapedName(name[1..]);
    }
  }
}
