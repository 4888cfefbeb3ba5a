/**
 * The request-side string helpers of app.js: `sanitizeString` for the
 * posted name, `sanitizeId` for the room id in the URL, and the route
 * parameter check that redirects a request whose room id is not already
 * in sanitised form.
 */
module Sanitize {
  import opened Js

  /** `String(v)` for a form field that may be missing. */
  function FieldText(v: Option<string>): string {
    match v
    case None => "undefined"
    case Some(s) => s
  }

  /** The characters of `s` that satisfy `p`, in order. */
  function KeepIf(s: string, p: char -> bool): (r: string)
    ensures |r| <= |s|
    ensures IsSubsequence(r, s)
    ensures forall k :: 0 <= k < |r| ==> p(r[k])
    ensures forall k :: 0 <= k < |s| && p(s[k]) ==> s[k] in r
    ensures forall c :: multiset(r)[c] == if p(c) then multiset(s)[c] else 0
  {
    if s == [] then []
    else
      var tail := KeepIf(s[1..], p);
      assert ([s[0]] + tail)[1..] == tail;
      KeptCountStep(s, p, tail);
      if p(s[0]) then [s[0]] + tail else tail
  }

  lemma KeptCountStep(s: string, p: char -> bool, tail: string)
    requires s != []
    requires forall c :: multiset(tail)[c] == if p(c) then multiset(s[1..])[c] else 0
    ensures var r := if p(s[0]) then [s[0]] + tail else tail;
      forall c :: multiset(r)[c] == if p(c) then multiset(s)[c] else 0
  {
    assert s == [s[0]] + s[1..];
    assert multiset(s) == multiset([s[0]]) + multiset(s[1..]);
  }

  lemma {:induction false} KeepIfAll(s: string, p: char -> bool)
    requires forall k :: 0 <= k < |s| ==> p(s[k])
    ensures KeepIf(s, p) == s
  {
    if s != [] {
      KeepIfAll(s[1..], p);
    }
  }

  /**
   * `sanitizeString(str)`: trimmed, cut to 256 characters, then every
   * character outside the allowed categories removed.  `allowed` stands for
   * the Unicode test `\p{Letter}|\p{Mark}|\p{Separator}|\p{Number}`.
   */
  function SanitizeString(v: Option<string>, allowed: char -> bool): (r: string)
    ensures |r| <= 256
    ensures forall k :: 0 <= k < |r| ==> allowed(r[k])
    ensures IsSubsequence(r, Trim(FieldText(v)))
    ensures var cut := Take(Trim(FieldText(v)), 256);
      IsSubsequence(r, cut) && forall c :: multiset(r)[c] == if allowed(c) then multiset(cut)[c] else 0
  {
    var t := Trim(FieldText(v));
    var cut := Take(t, 256);
    SubsequenceOfPrefix(KeepIf(cut, allowed), t, |cut|);
    KeepIf(cut, allowed)
  }

  lemma {:induction false} SubsequenceOfLonger<T>(r: seq<T>, s: seq<T>, extra: seq<T>)
    requires IsSubsequence(r, s)
    ensures IsSubsequence(r, s + extra)
    decreases |s|
  {
    if r != [] {
      assert (s + extra)[1..] == s[1..] + extra;
      if r[0] == s[0] && IsSubsequence(r[1..], s[1..]) {
        SubsequenceOfLonger(r[1..], s[1..], extra);
      } else {
        SubsequenceOfLonger(r, s[1..], extra);
      }
    }
  }

  lemma SubsequenceOfPrefix<T>(r: seq<T>, s: seq<T>, n: nat)
    requires n <= |s| && IsSubsequence(r, s[..n])
    ensures IsSubsequence(r, s)
  {
    SubsequenceOfLonger(r, s[..n], s[n..]);
    assert s[..n] + s[n..] == s;
  }

  /**
   * The name used for a posted message: the sanitised form field, or the
   * configured default when that comes out empty.
   */
  function PostedName(v: Option<string>, defaultName: string, allowed: char -> bool): (r: string)
    ensures defaultName != [] ==> r != []
    ensures r == defaultName || (r != [] && r == SanitizeString(v, allowed))
    ensures SanitizeString(v, allowed) != [] ==> r == SanitizeString(v, allowed)
    ensures SanitizeString(v, allowed) == [] ==> r == defaultName
  {
    var name := SanitizeString(v, allowed);
    if name != [] then name else defaultName
  }

  /** `toLowerCase` on one character, ASCII letters only. */
  function LowerAscii(c: char): char {
    if 'A' <= c <= 'Z' then (c as int + 32) as char else c
  }

  function LowerAll(s: string): (r: string)
    ensures |r| == |s|
    ensures forall k :: 0 <= k < |s| ==> r[k] == LowerAscii(s[k])
  {
    if s == [] then [] else [LowerAscii(s[0])] + LowerAll(s[1..])
  }

  /** The characters `[a-z0-9-]` that survive `sanitizeId`. */
  predicate IsIdChar(c: char) {
    ('a' <= c <= 'z') || ('0' <= c <= '9') || c == '-'
  }

  /** A room id in sanitised form: at most 128 characters of `[a-z0-9-]`. */
  predicate IsSanitizedId(s: string) {
    |s| <= 128 && forall k :: 0 <= k < |s| ==> IsIdChar(s[k])
  }

  /**
   * `sanitizeId(id)`: trimmed, cut to 128 characters, lower-cased, and
   * every character outside `[a-z0-9-]` removed.
   */
  function SanitizeId(id: string): (r: string)
    ensures IsSanitizedId(r)
    ensures var cut := LowerAll(Take(Trim(id), 128));
      IsSubsequence(r, cut) && forall c :: multiset(r)[c] == if IsIdChar(c) then multiset(cut)[c] else 0
  {
    KeepIf(LowerAll(Take(Trim(id), 128)), IsIdChar)
  }

  lemma IdCharIsNotWhitespace(c: char)
    requires IsIdChar(c)
    ensures !IsWhitespace(c) && LowerAscii(c) == c
  {
  }

  /** An id already in sanitised form is returned unchanged. */
  lemma SanitizeIdOfSanitized(s: string)
    requires IsSanitizedId(s)
    ensures SanitizeId(s) == s
  {
    if s != [] {
      IdCharIsNotWhitespace(s[0]);
      IdCharIsNotWhitespace(s[|s| - 1]);
    }
    TrimOfTrimmed(s);
    assert Take(s, 128) == s;
    forall k | 0 <= k < |s| ensures LowerAll(s)[k] == s[k] {
      IdCharIsNotWhitespace(s[k]);
    }
    assert LowerAll(s) == s;
    KeepIfAll(s, IsIdChar);
  }

  /** `sanitizeId` is a fixpoint on its own output. */
  lemma SanitizeIdIdempotent(id: string)
    ensures SanitizeId(SanitizeId(id)) == SanitizeId(id)
  {
    SanitizeIdOfSanitized(SanitizeId(id));
  }

  /** `sanitizeId` leaves exactly the ids in sanitised form unchanged. */
  lemma SanitizeIdUnchangedIff(id: string)
    ensures SanitizeId(id) == id <==> IsSanitizedId(id)
  {
    if IsSanitizedId(id) {
      SanitizeIdOfSanitized(id);
    }
  }

  /** What the `roomId` parameter handler does with a request. */
  datatype ParamOutcome = Next | Redirect(status: int, location: string)

  /** The room a redirect sends the client to. */
  function RedirectRoom(rawId: string, defaultRoomId: string): string {
    var roomId := SanitizeId(rawId);
    if roomId != [] then roomId else defaultRoomId
  }

  /**
   * The `roomId` parameter check: the route goes on when the raw id is
   * its own sanitised form, and otherwise answers 307 with a `Location`
   * of the sanitised id, or of the default room when that is empty.
   */
  function RoomParam(rawId: string, defaultRoomId: string): (r: ParamOutcome)
    ensures r.Next? <==> IsSanitizedId(rawId)
    ensures r.Redirect? ==> r == Redirect(307, "/" + RedirectRoom(rawId, defaultRoomId) + "/")
  {
    SanitizeIdUnchangedIff(rawId);
    var roomId := SanitizeId(rawId);
    if roomId != rawId then
      Redirect(307, "/" + (if roomId != [] then roomId else defaultRoomId) + "/")
    else Next
  }

  /**
   * Following a redirect always lands on an accepted id, provided the
   * configured default room is itself in sanitised form.
   */
  lemma RedirectIsAccepted(rawId: string, defaultRoomId: string)
    requires IsSanitizedId(defaultRoomId)
    ensures RoomParam(RedirectRoom(rawId, defaultRoomId), defaultRoomId) == Next
  {
  }
}
