/** The whitespace tokenizer that lets spaCy run on text that is already
    tokenized: it splits on single spaces and reports, for each word, whether
    a space follows it. Only the `(words, spaces)` pair is modelled; the spaCy
    document built from it is not. */
module Tokenizer {
  import opened Strings

  /** The text a `(words, spaces)` pair stands for: each word, followed by a
      space where its flag is set (how spaCy rebuilds a document's text). */
  function Render(words: seq<string>, spaces: seq<bool>): string
    requires |words| == |spaces|
  {
    if |words| == 0 then ""
    else words[0] + (if spaces[0] then " " else "") + Render(words[1..], spaces[1..])
  }

  /** How a piece of `text.split(" ")` comes out of the tokenizer: an empty
      piece becomes a lone space with no space after it, a non-empty piece is
      kept and is followed by a space unless it is the last piece; a last
      piece that is empty is dropped. */
  ghost predicate Tokenized(pieces: seq<string>, words: seq<string>, spaces: seq<bool>)
  {
    && |pieces| >= 1
    && |words| == |spaces|
    && |words| == (if pieces[|pieces| - 1] == "" then |pieces| - 1 else |pieces|)
    && (forall i :: 0 <= i < |words| ==> words[i] == (if pieces[i] == "" then " " else pieces[i]))
    && (forall i :: 0 <= i < |spaces| ==> spaces[i] == (pieces[i] != "" && i < |pieces| - 1))
  }

  /** The words and flags spell out exactly the pieces joined by spaces. */
  lemma {:induction false} RenderTokenized(pieces: seq<string>, words: seq<string>, spaces: seq<bool>)
    requires Tokenized(pieces, words, spaces)
    ensures Render(words, spaces) == Join(pieces, ' ')
    decreases |pieces|
  {
    if |pieces| == 1 {
      if pieces[0] != "" {
        assert Render(words[1..], spaces[1..]) == "";
      }
    } else {
      assert words[0] + (if spaces[0] then " " else "") == pieces[0] + " ";
      RenderTokenized(pieces[1..], words[1..], spaces[1..]);
    }
  }

  /** After the loop every piece is kept or replaced by a lone space, and is
      flagged exactly when it was not empty; dropping a final lone space, or
      else clearing the last flag, gives the tokenizer's result. */
  lemma Trimmed(pieces: seq<string>, ws: seq<string>, ss: seq<bool>, words: seq<string>, spaces: seq<bool>)
    requires |pieces| >= 1 && forall i :: 0 <= i < |pieces| ==> ' ' !in pieces[i]
    requires |ws| == |ss| == |pieces|
    requires forall k :: 0 <= k < |pieces| ==> ws[k] == (if pieces[k] == "" then " " else pieces[k])
    requires forall k :: 0 <= k < |pieces| ==> ss[k] == (pieces[k] != "")
    requires if ws[|ws| - 1] == " " then words == ws[..|ws| - 1] && spaces == ss[..|ss| - 1]
             else words == ws && spaces == ss[|ss| - 1 := false]
    ensures Tokenized(pieces, words, spaces)
    ensures forall i :: 0 <= i < |words| ==> words[i] != ""
  {
    var n := |pieces|;
    assert ws[n - 1] == " " <==> pieces[n - 1] == "" by {
      if pieces[n - 1] != "" { assert ' ' !in pieces[n - 1]; assert pieces[n - 1] != " "; }
    }
  }

  /** The tokenizer's result, once every piece of `text.split(" ")` has been
      replaced and flagged and the end trimmed, spells out `text`. */
  lemma Finished(text: string, ws: seq<string>, ss: seq<bool>, words: seq<string>, spaces: seq<bool>)
    requires |ws| == |ss| == |Split(text, ' ')|
    requires forall k :: 0 <= k < |ws| ==> ws[k] == (if Split(text, ' ')[k] == "" then " " else Split(text, ' ')[k])
    requires forall k :: 0 <= k < |ss| ==> ss[k] == (Split(text, ' ')[k] != "")
    requires if ws[|ws| - 1] == " " then words == ws[..|ws| - 1] && spaces == ss[..|ss| - 1]
             else words == ws && spaces == ss[|ss| - 1 := false]
    ensures Tokenized(Split(text, ' '), words, spaces)
    ensures forall i :: 0 <= i < |words| ==> words[i] != ""
    ensures Render(words, spaces) == text
  {
    var pieces := Split(text, ' ');
    SplitPieces(text, ' ');
    Trimmed(pieces, ws, ss, words, spaces);
    RenderTokenized(pieces, words, spaces);
    JoinSplit(text, ' ');
  }

  /** `WhitespaceTokenizer.__call__`, up to the construction of the spaCy
      document. */
  method Tokenize(text: string) returns (words: seq<string>, spaces: seq<bool>)
    ensures Tokenized(Split(text, ' '), words, spaces)
    ensures forall i :: 0 <= i < |words| ==> words[i] != ""
    ensures Render(words, spaces) == text
  {
    var pieces := Split(text, ' ');
    var n := |pieces|;
    var w := new string[n](i requires 0 <= i < n => pieces[i]);
    var sp := new bool[n](i => true);
    for i := 0 to n
      invariant forall k :: 0 <= k < i ==> w[k] == (if pieces[k] == "" then " " else pieces[k])
      invariant forall k :: 0 <= k < i ==> sp[k] == (pieces[k] != "")
      invariant forall k :: i <= k < n ==> w[k] == pieces[k] && sp[k]
    {
      if w[i] == "" {
        w[i] := " ";
        sp[i] := false;
      }
    }
    ghost var ws, ss := w[..], sp[..];
    if w[n - 1] == " " {
      words := w[..n - 1];
      spaces := sp[..n - 1];
    } else {
      sp[n - 1] := false;
      words := w[..];
      spaces := sp[..];
      assert spaces == ss[n - 1 := false];
    }
    Finished(text, ws, ss, words, spaces);
  }
}
