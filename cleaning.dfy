/**
 * The cleaning the server applies to the model's reply text before parsing
 * it as JSON: remove every "```json" fence opener (any letter case) and the
 * white space after it, then every remaining "```" run and the white space
 * after it, then cut the text down to the span from the first "{" to the
 * last "}", and trim.
 */
module Cleaning {
  import opened Common

  /** `marker` starts `s`, letters compared without regard to case. */
  predicate MarkerAt(s: string, marker: string)
  {
    |marker| <= |s| && ToLower(s[..|marker|]) == marker
  }

  /**
   * `s.replace(/<marker>\s*\/gi, '')`: scanning left to right, each
   * occurrence of the marker is removed together with the white space run
   * after it, and the scan resumes after that run.
   */
  function StripMarker(s: string, marker: string): (r: string)
    requires |marker| > 0
    ensures |r| <= |s|
    decreases |s|
  {
    if MarkerAt(s, marker) then StripMarker(TrimStart(s[|marker|..]), marker)
    else if s == [] then []
    else [s[0]] + StripMarker(s[1..], marker)
  }

  const JsonFence: string := "```json"
  const Fence: string := "```"

  /** Three backticks start at position `i` of `s`. */
  predicate FenceAt(s: string, i: int)
  {
    0 <= i && i + 3 <= |s| && s[i] == '`' && s[i + 1] == '`' && s[i + 2] == '`'
  }

  predicate FenceFree(s: string)
  {
    forall i :: 0 <= i < |s| ==> !FenceAt(s, i)
  }

  /** Where the text does not start with the marker, stripping keeps its first character. */
  lemma StripKeepsHead(s: string, marker: string)
    requires |marker| > 0 && s != [] && !MarkerAt(s, marker)
    ensures StripMarker(s, marker) == [s[0]] + StripMarker(s[1..], marker)
  {
  }

  /** Backticks have no case: the fence marker is exactly three backticks. */
  lemma FenceMarkerIff(s: string)
    ensures MarkerAt(s, Fence) <==> FenceAt(s, 0)
  {
    if |s| >= 3 {
      var l := ToLower(s[..3]);
      ToLowerAt(s[..3]);
      assert l == [LowerChar(s[0]), LowerChar(s[1]), LowerChar(s[2])];
    }
  }

  /** Stripping never leaves a fence at the front of the result. */
  lemma NoFenceAtFront(s: string)
    requires s != [] && !FenceAt(s, 0)
    ensures !FenceAt(StripMarker(s, Fence), 0)
  {
    FenceMarkerIff(s);
    var r := StripMarker(s, Fence);
    StripKeepsHead(s, Fence);
    if s[0] == '`' && |s| >= 2 {
      var t := StripMarker(s[1..], Fence);
      FenceMarkerIff(s[1..]);
      assert !FenceAt(s[1..], 0);
      StripKeepsHead(s[1..], Fence);
      assert t[0] == s[1];
      if s[1] == '`' && |s| >= 3 {
        FenceMarkerIff(s[2..]);
        assert s[2] != '`';
        StripKeepsHead(s[2..], Fence);
        assert t[1] == s[2];
      }
    }
  }

  /** After the second pass no run of three backticks is left. */
  lemma {:induction false} StripFenceFree(s: string)
    ensures FenceFree(StripMarker(s, Fence))
    decreases |s|
  {
    FenceMarkerIff(s);
    if FenceAt(s, 0) {
      StripFenceFree(TrimStart(s[3..]));
    } else if s != [] {
      var r := StripMarker(s, Fence);
      var t := StripMarker(s[1..], Fence);
      StripFenceFree(s[1..]);
      StripKeepsHead(s, Fence);
      NoFenceAtFront(s);
      forall i | 0 < i < |r|
        ensures !FenceAt(r, i)
      {
        assert !FenceAt(t, i - 1);
      }
    }
  }

  /** Every slice of a text without a fence is without a fence. */
  lemma FenceFreeSlice(s: string, i: int, j: int)
    requires FenceFree(s) && 0 <= i <= j <= |s|
    ensures FenceFree(s[i..j])
  {
    forall k | 0 <= k < j - i
      ensures !FenceAt(s[i..j], k)
    {
      assert !FenceAt(s, i + k);
    }
  }

  /**
   * `s.replace(/^[^{]*({.*})[^}]*$/s, '$1')`: when a "{" comes before the
   * last "}", the text from the first "{" through the last "}"; otherwise
   * the text unchanged.
   */
  function ExtractObject(s: string): (r: string)
  {
    match (IndexOf(s, '{'), LastIndexOf(s, '}'))
    case (Some(i), Some(j)) => if i < j then s[i..j + 1] else s
    case _ => s
  }

  /**
   * The regular expression's own reading: the text splits into a part
   * without "{", a group from a "{" to a "}", and a part without "}".
   */
  predicate ObjectSplit(s: string, i: int, j: int)
  {
    0 <= i < j < |s| && s[i] == '{' && s[j] == '}' && '{' !in s[..i] && '}' !in s[j + 1..]
  }

  /** Whenever the pattern matches, the replacement is the captured group. */
  lemma ExtractObjectMatches(s: string, i: int, j: int)
    requires ObjectSplit(s, i, j)
    ensures ExtractObject(s) == s[i..j + 1]
  {
    IndexOfIs(s, '{', i);
    LastIndexOfIs(s, '}', j);
  }

  /** When the pattern cannot match, the text is left as it is. */
  lemma ExtractObjectNoMatch(s: string)
    requires forall i, j :: !ObjectSplit(s, i, j)
    ensures ExtractObject(s) == s
  {
    IndexOfFirst(s, '{');
    LastIndexOfLast(s, '}');
    match (IndexOf(s, '{'), LastIndexOf(s, '}'))
    case (Some(i), Some(j)) =>
      if i < j {
        assert ObjectSplit(s, i, j);
      }
    case _ =>
  }

  /** What the extraction keeps starts with "{" and ends with "}", or is the whole text. */
  lemma ExtractObjectShape(s: string)
    ensures var r := ExtractObject(s);
            r == s || (|r| >= 2 && r[0] == '{' && r[|r| - 1] == '}' && ObjectSplit(s, IndexOf(s, '{').value, LastIndexOf(s, '}').value))
  {
    IndexOfFirst(s, '{');
    LastIndexOfLast(s, '}');
  }

  /** Extracting twice extracts nothing more. */
  lemma ExtractObjectIdempotent(s: string)
    ensures ExtractObject(ExtractObject(s)) == ExtractObject(s)
  {
    var r := ExtractObject(s);
    if r != s {
      var i, j := IndexOf(s, '{').value, LastIndexOf(s, '}').value;
      assert r[..0] == [] && r[|r|..] == [];
      assert ObjectSplit(r, 0, |r| - 1);
      ExtractObjectMatches(r, 0, |r| - 1);
    }
  }

  /** The cleaning chain applied to a reply text, before `JSON.parse`. */
  function CleanResponse(text: string): string
  {
    Trim(ExtractObject(StripMarker(StripMarker(text, JsonFence), Fence)))
  }

  /** The cleaned text never holds a code fence, whatever the reply was. */
  lemma CleanedIsFenceFree(text: string)
    ensures FenceFree(CleanResponse(text))
  {
    var u := StripMarker(StripMarker(text, JsonFence), Fence);
    StripFenceFree(StripMarker(text, JsonFence));
    ExtractFenceFree(u);
    TrimFenceFree(ExtractObject(u));
  }

  /** Extracting the object span keeps a text without fences without them. */
  lemma ExtractFenceFree(u: string)
    requires FenceFree(u)
    ensures FenceFree(ExtractObject(u))
  {
    if ExtractObject(u) != u {
      FenceFreeSlice(u, IndexOf(u, '{').value, LastIndexOf(u, '}').value + 1);
    }
  }

  /** Trimming keeps a text without fences without them. */
  lemma TrimFenceFree(e: string)
    requires FenceFree(e)
    ensures FenceFree(Trim(e))
  {
    TrimSlice(e);
    FenceFreeSlice(e, |e| - |TrimStart(e)|, |e| - |TrimStart(e)| + |Trim(e)|);
  }

  /**
   * When the unfenced text holds an object span, the cleaned text is
   * exactly that span, braces included.
   */
  lemma CleanedIsObjectSpan(text: string, i: int, j: int)
    requires ObjectSplit(StripMarker(StripMarker(text, JsonFence), Fence), i, j)
    ensures CleanResponse(text) == StripMarker(StripMarker(text, JsonFence), Fence)[i..j + 1]
  {
    TrimObjectSpan(StripMarker(StripMarker(text, JsonFence), Fence), i, j);
  }

  /** An object span has no white space at either end, so trimming keeps all of it. */
  lemma TrimObjectSpan(u: string, i: int, j: int)
    requires ObjectSplit(u, i, j)
    ensures Trim(ExtractObject(u)) == u[i..j + 1]
  {
    ExtractObjectMatches(u, i, j);
    var e := u[i..j + 1];
    assert TrimStart(e) == e;
    assert TrimEnd(e) == e;
  }
}
