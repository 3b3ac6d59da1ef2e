/** Optional values and the little of Python's string library that the modelled code relies on. */
module PyText {

  datatype Option<+T> = None | Some(value: T)

  /** The characters for which `str.isspace` answers true, hence those `str.strip` drops. */
  predicate IsSpace(c: char) {
    || '\t' <= c <= '\r'
    || '\U{1C}' <= c <= ' '
    || c == '\U{85}' || c == '\U{A0}' || c == '\U{1680}'
    || '\U{2000}' <= c <= '\U{200A}'
    || c == '\U{2028}' || c == '\U{2029}' || c == '\U{202F}' || c == '\U{205F}' || c == '\U{3000}'
  }

  function LStrip(s: string): string {
    if s != "" && IsSpace(s[0]) then LStrip(s[1..]) else s
  }

  function RStrip(s: string): string {
    if s != "" && IsSpace(s[|s| - 1]) then RStrip(s[..|s| - 1]) else s
  }

  function Strip(s: string): string {
    RStrip(LStrip(s))
  }

  /** On a stripped string, `" ".join(s.split())`: each run of white space leaves one space, at its last character. */
  function Collapse(s: string): string {
    if s == "" then ""
    else if !IsSpace(s[0]) then [s[0]] + Collapse(s[1..])
    else (if |s| > 1 && !IsSpace(s[1]) then " " else "") + Collapse(s[1..])
  }

  /** `s.split()`: the maximal runs of characters that are no white space, in order. */
  function Words(s: string): (ws: seq<string>)
    ensures s != "" && !IsSpace(s[0]) ==> ws != []
    ensures forall i :: 0 <= i < |ws| ==> ws[i] != ""
  {
    if s == "" then []
    else if IsSpace(s[0]) then Words(s[1..])
    else if |s| == 1 || IsSpace(s[1]) then [[s[0]]] + Words(s[1..])
    else [[s[0]] + Words(s[1..])[0]] + Words(s[1..])[1..]
  }

  /** `sep.join(parts)`. */
  function Join(sep: string, parts: seq<string>): string {
    if parts == [] then "" else if |parts| == 1 then parts[0] else parts[0] + sep + Join(sep, parts[1..])
  }

  lemma {:induction false} WordsLStrip(s: string)
    ensures Words(LStrip(s)) == Words(s)
    ensures LStrip(s) != "" ==> !IsSpace(LStrip(s)[0])
  {
    if s != "" && IsSpace(s[0]) { WordsLStrip(s[1..]); }
  }

  lemma {:induction false} WordsSnocSpace(s: string, c: char)
    requires IsSpace(c)
    ensures Words(s + [c]) == Words(s)
  {
    if s != "" {
      assert (s + [c])[1..] == s[1..] + [c];
      WordsSnocSpace(s[1..], c);
    }
  }

  lemma {:induction false} WordsRStrip(s: string)
    ensures Words(RStrip(s)) == Words(s)
  {
    if s != "" && IsSpace(s[|s| - 1]) {
      var init, last := s[..|s| - 1], s[|s| - 1];
      WordsRStrip(init);
      WordsSnocSpace(init, last);
      assert s == init + [last];
    }
  }

  lemma {:induction false} RStripEnds(s: string)
    ensures RStrip(s) != "" ==> !IsSpace(RStrip(s)[|RStrip(s)| - 1]) && RStrip(s)[0] == s[0]
  {
    if s != "" && IsSpace(s[|s| - 1]) { RStripEnds(s[..|s| - 1]); }
  }

  lemma {:induction false} CollapseSpaces(s: string)
    requires s != "" && !IsSpace(s[|s| - 1])
    ensures Words(s) != []
    ensures Collapse(s) == (if IsSpace(s[0]) then " " else "") + Join(" ", Words(s))
  {
    if |s| > 1 {
      CollapseSpaces(s[1..]);
    } else {
      assert s == [s[0]] && Words(s[1..]) == [] && Words(s) == [[s[0]]];
    }
  }

  /** Stripping and collapsing a text joins its words with single spaces. */
  lemma CollapseIsSpacedWords(s: string)
    ensures Collapse(Strip(s)) == Join(" ", Words(s))
  {
    WordsLStrip(s);
    WordsRStrip(LStrip(s));
    RStripEnds(LStrip(s));
    if Strip(s) != "" { CollapseSpaces(Strip(s)); }
  }

  /** Nothing is left of a text by stripping exactly if it has no words. */
  lemma BlankIffWordless(s: string)
    ensures Strip(s) == "" <==> Words(s) == []
  {
    WordsLStrip(s);
    WordsRStrip(LStrip(s));
    RStripEnds(LStrip(s));
    if Strip(s) != "" { CollapseSpaces(Strip(s)); }
  }

  /** `s[:n]`. */
  function Take<T>(s: seq<T>, n: nat): seq<T> {
    if |s| > n then s[..n] else s
  }

  /** `str.lower` on an ASCII letter. */
  function LowerAscii(c: char): char {
    if 'A' <= c <= 'Z' then c - 'A' + 'a' else c
  }

  function Distance(a: int, b: int): nat {
    if a < b then b - a else a - b
  }

  /** `max(1, min(size, 100))`: the page size used for any that is asked for. */
  function ClampPageSize(size: int): (n: nat)
    ensures 1 <= n <= 100
  {
    if size < 1 then 1 else if size > 100 then 100 else size
  }

  /** None from 1 to 100 is nearer to the one asked for. */
  lemma ClampIsNearest(size: int, n: nat)
    requires 1 <= n <= 100
    ensures Distance(size, ClampPageSize(size)) <= Distance(size, n)
  {
  }
}
