/**
 * Pulling the JSON text out of a model reply that may wrap it in a
 * Markdown code fence, as `EventExtractionDemo` does after a plain create
 * call (`_run_with_create`) and after a parse-style call (`_run_with_parse`).
 */
module JsonFence {
  import opened PyText

  /** The opening fence that marks a JSON block. */
  const OpenFence: string := "```json"

  /** A bare fence. */
  const Fence: string := "```"

  /** `t` occurs in `s` exactly at `k` and nowhere between `start` and `k`, so `find` returns `k`. */
  lemma FindIs(s: string, t: string, start: nat, k: int)
    requires start <= k && OccursAt(s, t, k)
    requires forall i :: start <= i < k ==> !OccursAt(s, t, i)
    ensures Find(s, t, start) == k
  {
  }

  /** `t` occurs in `s` exactly at `k` and nowhere after it, so `rfind` returns `k`. */
  lemma RFindIs(s: string, t: string, k: int)
    requires OccursAt(s, t, k)
    requires forall i :: k < i ==> !OccursAt(s, t, i)
    ensures RFind(s, t) == k
  {
  }

  /** A stretch of text without the first character of `t` holds no occurrence of `t` starting in it. */
  lemma NoLeadNoOccurrence(s: string, t: string, start: nat, stop: int)
    requires t != []
    requires forall i :: start <= i < stop && i < |s| ==> s[i] != t[0]
    ensures forall i :: start <= i < stop ==> !OccursAt(s, t, i)
  {
    forall i | start <= i < stop ensures !OccursAt(s, t, i) {
      if i + |t| <= |s| {
        assert s[i..i + |t|][0] == s[i];
      }
    }
  }

  /**
   * The part of the reply `_run_with_create` keeps, before stripping: after
   * the first "```json", up to the next "```"; without "```json", the whole
   * reply. When no closing fence follows, `find` gives -1 and the slice
   * `[start:-1]` drops the last character of the reply.
   */
  function CreateSlice(text: string): (inner: string)
    ensures exists a :: OccursAt(text, inner, a)
  {
    if Contains(text, OpenFence) then
      var start := Find(text, OpenFence, 0) + |OpenFence|;
      var end := Find(text, Fence, start);
      var inner := Slice(text, start, end);
      assert OccursAt(text, inner, ClampIndex(start, |text|));
      inner
    else
      assert OccursAt(text, text, 0);
      text
  }

  /** `_run_with_create` as written: the kept part, stripped. */
  function ExtractJsonCreate(text: string): (r: string)
    ensures r == [] || (!IsSpace(r[0]) && !IsSpace(r[|r| - 1]))
  {
    Strip(CreateSlice(text))
  }

  /** The kept part with a missing closing fence read as "to the end of the reply". */
  function CreateSliceFixed(text: string): (inner: string)
    ensures exists a :: OccursAt(text, inner, a)
  {
    if Contains(text, OpenFence) then
      var start := Find(text, OpenFence, 0) + |OpenFence|;
      var end := Find(text, Fence, start);
      var inner := if end == -1 then text[start..] else text[start..end];
      assert OccursAt(text, inner, start);
      inner
    else
      assert OccursAt(text, text, 0);
      text
  }

  /** The corrected extraction: the corrected kept part, stripped. */
  function ExtractJsonCreateFixed(text: string): (r: string)
    ensures r == [] || (!IsSpace(r[0]) && !IsSpace(r[|r| - 1]))
  {
    Strip(CreateSliceFixed(text))
  }

  /** Both versions return a piece of the reply. */
  lemma ExtractedIsPieceOfReply(text: string)
    ensures exists a :: OccursAt(text, ExtractJsonCreate(text), a)
    ensures exists a :: OccursAt(text, ExtractJsonCreateFixed(text), a)
  {
    var a := StrippedPiece(text, CreateSlice(text));
    assert OccursAt(text, ExtractJsonCreate(text), a);
    var b := StrippedPiece(text, CreateSliceFixed(text));
    assert OccursAt(text, ExtractJsonCreateFixed(text), b);
  }

  /** Where a piece of the text is, its stripped form is too. */
  lemma StrippedPiece(text: string, inner: string) returns (a: int)
    requires exists lo :: OccursAt(text, inner, lo)
    ensures OccursAt(text, Strip(inner), a)
  {
    var lo :| OccursAt(text, inner, lo);
    var b :| OccursAt(inner, Strip(inner), b);
    OccursWithin(text, inner, Strip(inner), lo, b);
    a := lo + b;
  }

  /** The layout of a fenced reply: any prose, "```json", the body, and optionally a closing fence and more prose. */
  lemma FencedLayout(prefix: string, body: string, rest: string)
    requires '`' !in prefix && '`' !in body
    ensures var text := prefix + OpenFence + body + rest;
      && Contains(text, OpenFence)
      && Find(text, OpenFence, 0) == |prefix|
      && text[|prefix| + 7..] == body + rest
      && (forall i :: |prefix| + 7 <= i < |prefix| + 7 + |body| ==> !OccursAt(text, Fence, i))
  {
    var text := prefix + OpenFence + body + rest;
    var p := |prefix|;
    assert text[p..p + 7] == OpenFence;
    NoLeadNoOccurrence(text, OpenFence, 0, p);
    FindIs(text, OpenFence, 0, p);
    assert text[p + 7..] == body + rest;
    forall i | p + 7 <= i < p + 7 + |body| ensures text[i] != '`' {
      assert text[i] == body[i - p - 7];
    }
    NoLeadNoOccurrence(text, Fence, p + 7, p + 7 + |body|);
  }

  /** Where the opening fence is followed by a closing one, both versions keep the text between them. */
  lemma SlicesBetweenFences(text: string, p: nat, e: int)
    requires Contains(text, OpenFence) && Find(text, OpenFence, 0) == p
    requires p + 7 <= e && Find(text, Fence, p + 7) == e
    ensures e <= |text|
    ensures CreateSlice(text) == text[p + 7..e] && CreateSliceFixed(text) == text[p + 7..e]
  {
    assert OccursAt(text, Fence, e);
    assert ClampIndex(p + 7, |text|) == p + 7 && ClampIndex(e, |text|) == e;
    assert Slice(text, p + 7, e) == text[p + 7..e];
  }

  /**
   * Both versions agree on a closed fence: the reply
   * `prefix` "```json" `body` "```" `suffix` yields the stripped body.
   */
  lemma ClosedFenceYieldsBody(prefix: string, body: string, suffix: string)
    requires '`' !in prefix && '`' !in body
    ensures ExtractJsonCreate(prefix + OpenFence + body + Fence + suffix) == Strip(body)
    ensures ExtractJsonCreateFixed(prefix + OpenFence + body + Fence + suffix) == Strip(body)
  {
    var text := prefix + OpenFence + body + (Fence + suffix);
    assert text == prefix + OpenFence + body + Fence + suffix;
    FencedLayout(prefix, body, Fence + suffix);
    var start := |prefix| + 7;
    var e := start + |body|;
    assert text[start..] == body + (Fence + suffix);
    assert text[e..e + 3] == Fence && text[start..e] == body by {
      var after := text[start..];
      assert text[e..e + 3] == after[|body|..|body| + 3];
      assert text[start..e] == after[..|body|];
    }
    FindIs(text, Fence, start, e);
    SlicesBetweenFences(text, |prefix|, e);
  }

  /** A reply without an opening ```` ```json ```` fence comes back whole, stripped. */
  lemma UnfencedReplyIsStripped(text: string)
    requires !Contains(text, OpenFence)
    ensures ExtractJsonCreate(text) == Strip(text)
    ensures ExtractJsonCreateFixed(text) == Strip(text)
  {
  }

  /**
   * As written, an unclosed fence loses the last character of the reply:
   * the result is the stripped body without its last character.
   */
  lemma UnclosedFenceDropsLastChar(prefix: string, body: string)
    requires '`' !in prefix && '`' !in body && body != []
    ensures ExtractJsonCreate(prefix + OpenFence + body) == Strip(body[..|body| - 1])
  {
    var text := prefix + OpenFence + body;
    assert text == prefix + OpenFence + body + [];
    FencedLayout(prefix, body, []);
    var start := |prefix| + 7;
    NoLeadNoOccurrence(text, Fence, start, |text|);
    assert Find(text, Fence, start) == -1;
    assert text[start..] == body;
    assert text[start..|text| - 1] == body[..|body| - 1];
    assert CreateSlice(text) == body[..|body| - 1];
  }

  /** An unclosed fence at the very start of the reply: the body without its last character, stripped. */
  lemma UnclosedFenceAtStart(text: string, body: string)
    requires text == OpenFence + body && '`' !in body && body != []
    ensures ExtractJsonCreate(text) == Strip(body[..|body| - 1])
  {
    assert text == [] + OpenFence + body;
    UnclosedFenceDropsLastChar([], body);
  }

  /** The body `{}` has no backtick, and without its last character it strips to "{". */
  lemma BracePair(body: string)
    requires |body| == 2 && body[0] == '{' && body[1] == '}'
    ensures '`' !in body && Strip(body[..|body| - 1]) == "{"
  {
    assert forall i :: 0 <= i < |body| ==> body[i] != '`';
    assert body[..|body| - 1] == "{";
    StripUnchanged("{");
  }

  /** The smallest reply that shows it: "```json" followed by `{}` yields "{", not "{}". */
  lemma UnclosedFenceExample(text: string, body: string)
    requires |body| == 2 && body[0] == '{' && body[1] == '}'
    requires text == OpenFence + body
    ensures ExtractJsonCreate(text) == "{"
  {
    BracePair(body);
    UnclosedFenceAtStart(text, body);
  }

  /** The corrected extraction returns the whole body of an unclosed fence. */
  lemma UnclosedFenceFixedYieldsBody(prefix: string, body: string)
    requires '`' !in prefix && '`' !in body
    ensures ExtractJsonCreateFixed(prefix + OpenFence + body) == Strip(body)
  {
    var text := prefix + OpenFence + body;
    assert text == prefix + OpenFence + body + [];
    FencedLayout(prefix, body, []);
    NoLeadNoOccurrence(text, Fence, |prefix| + 7, |text|);
  }

  /**
   * `_run_with_parse`: strips the reply; when it then starts with "```json",
   * keeps what lies after the first newline and before the last "```",
   * stripped.
   */
  function ExtractJsonParse(text: string): (r: string)
    ensures r == [] || (!IsSpace(r[0]) && !IsSpace(r[|r| - 1]))
    ensures !StartsWith(Strip(text), OpenFence) ==> r == Strip(text)
  {
    var t := Strip(text);
    if StartsWith(t, OpenFence) then
      var start := Find(t, "\n", 0) + 1;
      var end := RFind(t, Fence);
      Strip(Slice(t, start, end))
    else
      t
  }

  /** After the opening "```json" and its newline, no fence starts before `stop`, provided the text there has no backtick. */
  lemma NoFenceAfterOpening(text: string, stop: int)
    requires StartsWith(text, OpenFence + "\n")
    requires forall i :: 8 <= i < stop && i < |text| ==> text[i] != '`'
    ensures forall i :: 0 < i < stop ==> !OccursAt(text, Fence, i)
  {
    var head := OpenFence + "\n";
    assert text[..8] == head;
    forall i | 0 < i < stop ensures !OccursAt(text, Fence, i) {
      if i + 3 > |text| {
      } else if i < 3 {
        assert text[i..i + 3][2] == text[i + 2] == head[i + 2];
      } else if i < 8 {
        assert text[i..i + 3][0] == text[i] == head[i];
      } else {
        assert text[i..i + 3][0] == text[i];
      }
    }
  }

  /** A fenced reply, fence line and closing fence included, yields the stripped body. */
  lemma ParseFenceRoundTrip(body: string)
    requires '`' !in body
    ensures ExtractJsonParse(OpenFence + "\n" + body + Fence) == Strip(body)
  {
    var text := OpenFence + "\n" + body + Fence;
    var n := |text|;
    assert Strip(text) == text by {
      StripUnchanged(text);
    }
    assert StartsWith(text, OpenFence) && StartsWith(text, OpenFence + "\n") by {
      assert text[..8] == OpenFence + "\n";
    }
    assert Find(text, "\n", 0) == 7 by {
      assert text[7..8] == "\n";
      NoLeadNoOccurrence(text, "\n", 0, 7);
      FindIs(text, "\n", 0, 7);
    }
    assert RFind(text, Fence) == n - 3 by {
      forall i | 8 <= i < n - 3 ensures text[i] != '`' {
        assert text[i] == body[i - 8];
      }
      NoFenceAfterOpening(text, n - 3);
      assert text[n - 3..] == Fence;
      RFindIs(text, Fence, n - 3);
    }
    assert Slice(text, 8, n - 3) == body by {
      assert text[8..n - 3] == body;
    }
  }

  /**
   * An unclosed fenced reply yields nothing after a parse-style call: the
   * last "```" is the opening one, before the newline.
   */
  lemma ParseUnclosedFenceIsEmpty(body: string)
    requires '`' !in body
    requires body != [] && !IsSpace(body[|body| - 1])
    ensures ExtractJsonParse(OpenFence + "\n" + body) == []
  {
    var text := OpenFence + "\n" + body;
    assert text[|text| - 1] == body[|body| - 1];
    StripUnchanged(text);
    assert StartsWith(text, OpenFence) && StartsWith(text, OpenFence + "\n") by {
      assert text[..8] == OpenFence + "\n";
    }
    assert text[7..8] == "\n";
    NoLeadNoOccurrence(text, "\n", 0, 7);
    FindIs(text, "\n", 0, 7);
    forall i | 8 <= i < |text| ensures text[i] != '`' {
      assert text[i] == body[i - 8];
    }
    NoFenceAfterOpening(text, |text| + 1);
    assert text[0..3] == Fence;
    RFindIs(text, Fence, 0);
  }
}
