/** The text level of a scale rule: the splitter that breaks
    `<operator><condition>?<true>:<false>` into its four parts (the rule
    evaluator does this with the regular expression
    `^(\W)(.*)\?(.*):(.*)$`), and the `-` split of a range condition. */
module RuleSyntax {
  import opened Wrappers
  import opened ParseFloat

  /** The characters of the regular-expression class \w; the operator is
      any character outside it. */
  predicate IsWordChar(c: char) {
    IsDigit(c) || 'A' <= c <= 'Z' || 'a' <= c <= 'z' || c == '_'
  }

  /** The four capture groups of a matched rule text. */
  datatype Parts = Parts(op: char, condition: string, whenTrue: string, whenFalse: string)

  /** The index of the last `c` in `s`, or -1 when there is none. */
  function LastIndexOf(s: string, c: char): (k: int)
    ensures -1 <= k < |s|
    ensures k >= 0 ==> s[k] == c
    ensures forall j :: k < j < |s| ==> s[j] != c
    decreases |s|
  {
    if s == [] then -1
    else if s[|s| - 1] == c then |s| - 1
    else LastIndexOf(s[..|s| - 1], c)
  }

  /** The match of the rule pattern, computed explicitly. The operator is
      the first character and must not be a word character; `.` does not
      match a line break, so none may follow the operator. In the rest,
      the greedy true group ends at the last `:` and the greedy condition
      group at the last `?` before it; what follows the `:` is the false
      group. None when the pattern does not match. */
  function Split(s: string): (r: Option<Parts>)
  {
    if |s| == 0 || IsWordChar(s[0]) || '\n' in s[1..] then None
    else
      var rest := s[1..];
      var colon := LastIndexOf(rest, ':');
      if colon < 0 then None
      else
        var mid := rest[..colon];
        var q := LastIndexOf(mid, '?');
        if q < 0 then None
        else Some(Parts(s[0], mid[..q], mid[q + 1..], rest[colon + 1..]))
  }

  /** What it means for `p` to be the match of the rule pattern on `s`:
      `s` is the operator, the condition, `?`, the true text, `:` and the
      false text, with no line break after the operator, and the greedy
      groups leave no `?` in the true text and no `:` in the false text. */
  ghost predicate Decomposes(s: string, p: Parts) {
    && !IsWordChar(p.op)
    && s == [p.op] + (p.condition + "?" + p.whenTrue + ":" + p.whenFalse)
    && '\n' !in p.condition && '\n' !in p.whenTrue && '\n' !in p.whenFalse
    && '?' !in p.whenTrue
    && ':' !in p.whenFalse
  }

  lemma SplitSound(s: string)
    requires Split(s).Some?
    ensures Decomposes(s, Split(s).value)
  {
    var rest := s[1..];
    var colon := LastIndexOf(rest, ':');
    var mid := rest[..colon];
    var q := LastIndexOf(mid, '?');
    var p := Split(s).value;
    CutAt(rest, colon);
    NoneAfterLast(rest, ':');
    CutAt(mid, q);
    NoneAfterLast(mid, '?');
    assert rest == p.condition + "?" + p.whenTrue + ":" + p.whenFalse;
    assert s == [s[0]] + rest;
  }

  /** `s` is its prefix before `k`, the character at `k` and the rest. */
  lemma CutAt(s: string, k: nat)
    requires k < |s|
    ensures s == s[..k] + [s[k]] + s[k + 1..]
  {
  }

  /** Nothing after the last `c` is a `c`. */
  lemma NoneAfterLast(s: string, c: char)
    requires LastIndexOf(s, c) >= 0
    ensures c !in s[LastIndexOf(s, c) + 1..]
  {
    var k := LastIndexOf(s, c);
    var after := s[k + 1..];
    assert forall j :: 0 <= j < |after| ==> after[j] == s[k + 1 + j];
  }

  /** In `a`, `c`, `b` with no `c` in `b`, the last `c` is the one after `a`. */
  lemma {:induction false} LastAfter(a: string, c: char, b: string)
    requires c !in b
    ensures LastIndexOf(a + [c] + b, c) == |a|
    decreases |b|
  {
    var s := a + [c] + b;
    if b == [] {
      assert s[|s| - 1] == c;
    } else {
      assert s[|s| - 1] == b[|b| - 1];
      assert s[..|s| - 1] == a + [c] + b[..|b| - 1];
      LastAfter(a, c, b[..|b| - 1]);
    }
  }

  lemma SplitComplete(s: string, p: Parts)
    requires Decomposes(s, p)
    ensures Split(s) == Some(p)
  {
    var mid := p.condition + "?" + p.whenTrue;
    var rest := mid + ":" + p.whenFalse;
    assert s[1..] == rest;
    LastAfter(mid, ':', p.whenFalse);
    Sides(mid, ':', p.whenFalse);
    LastAfter(p.condition, '?', p.whenTrue);
    Sides(p.condition, '?', p.whenTrue);
  }

  /** The splitter succeeds exactly on the texts that decompose, and then
      returns their (unique) decomposition. */
  lemma SplitIff(s: string, p: Parts)
    ensures Split(s) == Some(p) <==> Decomposes(s, p)
  {
    if Split(s) == Some(p) { SplitSound(s); }
    if Decomposes(s, p) { SplitComplete(s, p); }
  }

  /** The pieces of `s` between occurrences of `sep`, as Go's strings.Split
      returns them for a one-character separator. */
  function SplitOn(s: string, sep: char): (parts: seq<string>)
    ensures |parts| == multiset(s)[sep] + 1
    ensures forall i :: 0 <= i < |parts| ==> sep !in parts[i]
    ensures Join(parts, sep) == s
    decreases |s|
  {
    var k := IndexOf(s, sep);
    if k == |s| then
      assert sep !in s;
      [s]
    else
      var rest := SplitOn(s[k + 1..], sep);
      assert s == s[..k] + [sep] + s[k + 1..];
      assert sep !in s[..k];
      assert multiset(s) == multiset(s[..k]) + multiset{sep} + multiset(s[k + 1..]) by {
        calc {
          multiset(s);
          multiset(s[..k] + [sep] + s[k + 1..]);
          multiset(s[..k] + [sep]) + multiset(s[k + 1..]);
        }
      }
      [s[..k]] + rest
  }

  /** The inverse of SplitOn: the pieces with `sep` between them. */
  function Join(parts: seq<string>, sep: char): string {
    if |parts| == 0 then []
    else if |parts| == 1 then parts[0]
    else parts[0] + [sep] + Join(parts[1..], sep)
  }

  /** Split and join are inverse: pieces that do not contain the separator
      come back unchanged. */
  lemma {:induction false} SplitJoin(parts: seq<string>, sep: char)
    requires |parts| > 0
    requires forall i :: 0 <= i < |parts| ==> sep !in parts[i]
    ensures SplitOn(Join(parts, sep), sep) == parts
  {
    if |parts| == 1 {
      assert IndexOf(parts[0], sep) == |parts[0]|;
    } else {
      var head := parts[0];
      var tail := Join(parts[1..], sep);
      IndexOfFirst(head, sep, tail);
      Sides(head, sep, tail);
      SplitJoin(parts[1..], sep);
      assert parts == [head] + parts[1..];
    }
  }
}
