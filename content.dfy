/** The small pure helpers of the task card and the description modal
    (frontend/src/pages/KanbanBoardPage.jsx): the priority cycle and colour,
    the code-block heuristic and the image-description format. */
module Content {
  import opened Common
  import opened TaskSchema

  // ---- Priority ----

  /** `list.indexOf(x)`: the first position of `x`, or -1. */
  function IndexOf(list: seq<string>, x: string): (r: int)
    ensures -1 <= r < |list|
    ensures r == -1 <==> x !in list
    ensures r >= 0 ==> list[r] == x && forall j :: 0 <= j < r ==> list[j] != x
  {
    if list == [] then -1
    else if list[0] == x then 0
    else
      var k := IndexOf(list[1..], x);
      if k == -1 then -1 else k + 1
  }

  /** The card's priority when it is first shown: `task.priority || "Low"`. */
  function InitialPriority(stored: Option<string>): (r: string)
    ensures Truthy(stored) ==> r == stored.value
    ensures !Truthy(stored) ==> r == DEFAULT_PRIORITY
  {
    if Truthy(stored) then stored.value else DEFAULT_PRIORITY
  }

  /** `PRIORITIES[(PRIORITIES.indexOf(priority) + 1) % PRIORITIES.length]` */
  function CyclePriority(p: string): (r: string)
    ensures ValidPriority(r)
    ensures p == "Low" ==> r == "Medium"
    ensures p == "Medium" ==> r == "High"
    ensures p == "High" ==> r == "Low"
    ensures !ValidPriority(p) ==> r == "Low"
  {
    PRIORITIES[(IndexOf(PRIORITIES, p) + 1) % |PRIORITIES|]
  }

  /** Three clicks bring a valid priority back to itself. */
  lemma CycleReturns(p: string)
    requires ValidPriority(p)
    ensures CyclePriority(CyclePriority(CyclePriority(p))) == p
  {
  }

  /** A click never leaves the priority where it was. */
  lemma CycleMoves(p: string)
    ensures CyclePriority(p) != p
  {
  }

  /** The names an object literal inherits from `Object.prototype`: a lookup
      `{ ... }[key]` finds them although the literal does not declare them. */
  const INHERITED_KEYS: set<string> := {
    "constructor", "hasOwnProperty", "isPrototypeOf", "propertyIsEnumerable",
    "toLocaleString", "toString", "valueOf", "__proto__",
    "__defineGetter__", "__defineSetter__", "__lookupGetter__", "__lookupSetter__"}

  /** What `getPriorityColor` hands to the dot's `className`: one of the
      literal's colour classes, or the inherited member a lookup found (a
      function, or the prototype itself for `__proto__`). Such a member is
      truthy, so `|| "bg-green-500"` keeps it, and it names no colour class. */
  datatype DotClass = ColourClass(name: string) | InheritedMember(key: string)

  /** `getPriorityColor`: `{ High: ..., Medium: ..., Low: ... }[priority] || "bg-green-500"`. */
  function PriorityColor(p: string): (r: DotClass)
    ensures p == "High" ==> r == ColourClass("bg-red-500")
    ensures p == "Medium" ==> r == ColourClass("bg-yellow-400")
    ensures r.InheritedMember? <==> p in INHERITED_KEYS
    ensures p != "High" && p != "Medium" && p !in INHERITED_KEYS ==> r == ColourClass("bg-green-500")
  {
    if p == "High" then ColourClass("bg-red-500")
    else if p == "Medium" then ColourClass("bg-yellow-400")
    else if p == "Low" then ColourClass("bg-green-500")
    else if p in INHERITED_KEYS then InheritedMember(p)
    else ColourClass("bg-green-500")
  }

  /** The three valid priorities get three different colours. */
  lemma PriorityColorDistinct(p: string, q: string)
    requires ValidPriority(p) && ValidPriority(q)
    ensures PriorityColor(p) == PriorityColor(q) <==> p == q
  {
  }

  /** A value outside the enum that the literal does not inherit is drawn
      like "Low". */
  lemma UnknownDrawnAsLow(p: string)
    requires !ValidPriority(p) && p !in INHERITED_KEYS
    ensures PriorityColor(p) == PriorityColor(DEFAULT_PRIORITY)
  {
  }

  // ---- Code blocks ----

  /** The characters of the class `[\{\};=<>]`. */
  predicate IsCodeChar(c: char)
  {
    c == '{' || c == '}' || c == ';' || c == '=' || c == '<' || c == '>'
  }

  /** `/[\{\};=<>]/.test(text)` */
  function HasCodeChar(text: string): (r: bool)
    ensures r <==> exists i :: 0 <= i < |text| && IsCodeChar(text[i])
  {
    if text == [] then false
    else IsCodeChar(text[0]) || HasCodeChar(text[1..])
  }

  /** The number of times `c` occurs in `s`. */
  function Count(s: string, c: char): nat
  {
    if s == [] then 0 else (if s[0] == c then 1 else 0) + Count(s[1..], c)
  }

  /** `text.split("\n")`: the pieces between line feeds, at least one. */
  function SplitLines(text: string): (r: seq<string>)
    ensures |r| == Count(text, '\n') + 1
    ensures forall i :: 0 <= i < |r| ==> '\n' !in r[i]
  {
    if text == [] then [""]
    else
      var rest := SplitLines(text[1..]);
      if text[0] == '\n' then [""] + rest
      else [[text[0]] + rest[0]] + rest[1..]
  }

  /** The inverse of `SplitLines`: `parts.join("\n")`. */
  function JoinLines(parts: seq<string>): string
    requires |parts| >= 1
  {
    if |parts| == 1 then parts[0] else parts[0] + "\n" + JoinLines(parts[1..])
  }

  /** Joining the pieces gives the text back. */
  lemma {:induction false} JoinSplit(text: string)
    ensures JoinLines(SplitLines(text)) == text
  {
    if text != [] {
      JoinSplit(text[1..]);
      var rest := SplitLines(text[1..]);
      if text[0] != '\n' {
        JoinHead(text[0], rest);
      }
      assert text == [text[0]] + text[1..];
    }
  }

  /** Prefixing a character to the first piece prefixes it to the join. */
  lemma JoinHead(c: char, parts: seq<string>)
    requires |parts| >= 1
    ensures JoinLines([[c] + parts[0]] + parts[1..]) == [c] + JoinLines(parts)
  {
    var ps := [[c] + parts[0]] + parts[1..];
    assert ps[1..] == parts[1..];
  }

  /** Splitting a join of line-feed-free pieces gives the pieces back. */
  lemma {:induction false} SplitJoin(parts: seq<string>)
    requires |parts| >= 1
    requires forall i :: 0 <= i < |parts| ==> '\n' !in parts[i]
    ensures SplitLines(JoinLines(parts)) == parts
  {
    if |parts| == 1 {
      SplitPiece(parts[0], []);
      assert parts[0] + [] == parts[0];
      assert parts[0] + "" == parts[0];
    } else {
      var tail := JoinLines(parts[1..]);
      SplitJoin(parts[1..]);
      SplitPiece(parts[0], "\n" + tail);
      assert parts[0] + "\n" + tail == parts[0] + ("\n" + tail);
      assert ("\n" + tail)[1..] == tail;
      assert SplitLines("\n" + tail) == [""] + parts[1..];
      assert parts[0] + "" == parts[0];
      assert parts == [parts[0]] + parts[1..];
    }
  }

  /** A line-feed-free piece in front of `rest` extends its first piece. */
  lemma {:induction false} SplitPiece(piece: string, rest: string)
    requires '\n' !in piece
    ensures SplitLines(piece + rest) ==
      [piece + SplitLines(rest)[0]] + SplitLines(rest)[1..]
  {
    var tail := SplitLines(rest);
    if piece != [] {
      SplitPiece(piece[1..], rest);
      assert (piece + rest)[0] == piece[0] && piece[0] != '\n';
      assert (piece + rest)[1..] == piece[1..] + rest;
      var inner := SplitLines(piece[1..] + rest);
      assert inner[0] == piece[1..] + tail[0] && inner[1..] == tail[1..];
      assert [piece[0]] + (piece[1..] + tail[0]) == piece + tail[0];
    } else {
      assert piece + rest == rest;
      assert piece + tail[0] == tail[0];
      assert tail == [tail[0]] + tail[1..];
    }
  }

  /** `isCodeBlock`: a code character, or more than three lines. */
  function IsCodeBlock(text: string): (r: bool)
    ensures r <==> (exists i :: 0 <= i < |text| && IsCodeChar(text[i])) || Count(text, '\n') >= 3
  {
    HasCodeChar(text) || |SplitLines(text)| > 3
  }

  // ---- Image descriptions ----

  /** The characters JavaScript's `.` does not match. */
  predicate IsLineTerminator(c: char)
  {
    c == '\n' || c == '\r' || c == '\U{2028}' || c == '\U{2029}'
  }

  /** Where the lazy `(.*?)\)` that starts at the front of `s` closes: the
      first `)` with no line terminator before it. */
  function CloseAt(s: string): (r: Option<nat>)
    ensures r.Some? ==> r.value < |s| && s[r.value] == ')' &&
                        (forall j :: 0 <= j < r.value ==> s[j] != ')' && !IsLineTerminator(s[j]))
    ensures r.None? ==> forall k :: 0 <= k < |s| && s[k] == ')' ==>
      exists j :: 0 <= j < k && IsLineTerminator(s[j])
  {
    if s == [] then None
    else if s[0] == ')' then Some(0)
    else if IsLineTerminator(s[0]) then None
    else match CloseAt(s[1..])
      case Some(k) => Some(k + 1)
      case None =>
        assert forall k :: 1 <= k < |s| && s[k] == ')' ==>
          exists j :: 0 <= j < k && IsLineTerminator(s[j]) by {
          forall k | 1 <= k < |s| && s[k] == ')'
            ensures exists j :: 0 <= j < k && IsLineTerminator(s[j]) {
            assert s[1..][k - 1] == ')';
            var j :| 0 <= j < k - 1 && IsLineTerminator(s[1..][j]);
            assert IsLineTerminator(s[j + 1]);
          }
        }
        None
  }

  /** The pattern `\((.*?)\)` matches at `i`: a `(` there, closed on its line. */
  predicate OpensAt(content: string, i: nat)
    requires i < |content|
  {
    content[i] == '(' && CloseAt(content[i + 1..]).Some?
  }

  /** The text the group captures in a match at `i`. */
  function Captured(content: string, i: nat): (r: string)
    requires i < |content| && OpensAt(content, i)
    ensures forall j :: 0 <= j < |r| ==> r[j] != ')' && !IsLineTerminator(r[j])
  {
    content[i + 1..][..CloseAt(content[i + 1..]).value]
  }

  /** The regular expression's scan: the first position at or after `from`
      where the pattern matches. */
  function FirstMatch(content: string, from: nat): (r: Option<nat>)
    requires from <= |content|
    ensures r.Some? ==> from <= r.value < |content| && OpensAt(content, r.value) &&
                        forall j :: from <= j < r.value ==> !OpensAt(content, j)
    ensures r.None? ==> forall j :: from <= j < |content| ==> !OpensAt(content, j)
    decreases |content| - from
  {
    if from == |content| then None
    else if OpensAt(content, from) then Some(from)
    else FirstMatch(content, from + 1)
  }

  /** `content.match(/\((.*?)\)/)?.[1]`: the text inside the first `(` that
      closes on its own line; `undefined` when no `(` does. */
  function MatchParens(content: string): (r: Option<string>)
    ensures r.None? <==> forall i :: 0 <= i < |content| ==> !OpensAt(content, i)
    ensures r.Some? ==>
              exists i :: 0 <= i < |content| && OpensAt(content, i) &&
                          (forall j :: 0 <= j < i ==> !OpensAt(content, j)) &&
                          r.value == Captured(content, i)
    ensures r.Some? ==> forall i :: 0 <= i < |r.value| ==> r.value[i] != ')' && !IsLineTerminator(r.value[i])
    ensures '(' !in content ==> r.None?
  {
    match FirstMatch(content, 0)
    case Some(i) => Some(Captured(content, i))
    case None => None
  }

  /** What the upload handler stores for an image: `![](${url})`. */
  function ImageMarkup(url: string): (r: string)
    ensures StartsWith(r, "![](")
  {
    "![](" + url + ")"
  }

  /** A url with no `)` and no line terminator is read back from its markup. */
  lemma ImageRoundTrip(url: string)
    requires forall i :: 0 <= i < |url| ==> url[i] != ')' && !IsLineTerminator(url[i])
    ensures MatchParens(ImageMarkup(url)) == Some(url)
  {
    var m := ImageMarkup(url);
    var tail := url + ")";
    assert m[4..] == tail;
    assert CloseAt(tail) == Some(|url|) by {
      assert tail[|url|] == ')';
      CloseAtFirst(tail, |url|);
    }
    assert tail[..|url|] == url;
    assert !OpensAt(m, 0) && !OpensAt(m, 1) && !OpensAt(m, 2) && OpensAt(m, 3);
  }

  /** `CloseAt` finds a `)` that nothing before it hides. */
  lemma {:induction false} CloseAtFirst(s: string, k: nat)
    requires k < |s| && s[k] == ')'
    requires forall j :: 0 <= j < k ==> s[j] != ')' && !IsLineTerminator(s[j])
    ensures CloseAt(s) == Some(k)
  {
    if k > 0 {
      CloseAtFirst(s[1..], k - 1);
    }
  }

  /** How the modal shows one description outside edit mode. */
  datatype Rendering =
    | CodeView(code: string)
    | ImageView(src: Option<string>)
    | TextView(text: string)

  /** The description's view: a code block first, then an image, then text
      with a placeholder for empty content. */
  function Classify(content: string): (r: Rendering)
    ensures r.CodeView? <==> IsCodeBlock(content)
    ensures r.ImageView? <==> !IsCodeBlock(content) && StartsWith(content, "![](")
    ensures r.CodeView? ==> r.code == content
    ensures r.ImageView? ==> r.src == MatchParens(content)
    ensures r.TextView? ==> r.text == if content == "" then "No description." else content
  {
    if IsCodeBlock(content) then CodeView(content)
    else if StartsWith(content, "![](") then ImageView(MatchParens(content))
    else TextView(if content == "" then "No description." else content)
  }

  /** An uploaded image whose url holds no code character, no `)` and no line
      terminator is shown as that image. */
  lemma UploadedImageShown(url: string)
    requires forall i :: 0 <= i < |url| ==> url[i] != ')' && !IsLineTerminator(url[i]) && !IsCodeChar(url[i])
    ensures Classify(ImageMarkup(url)) == ImageView(Some(url))
  {
    var m := ImageMarkup(url);
    forall i | 0 <= i < |m| ensures !IsCodeChar(m[i]) && m[i] != '\n' {
      if 4 <= i < 4 + |url| {
        assert m[i] == url[i - 4];
      }
    }
    NoLineFeedCount(m);
    ImageRoundTrip(url);
  }

  lemma {:induction false} NoLineFeedCount(s: string)
    requires forall i :: 0 <= i < |s| ==> s[i] != '\n'
    ensures Count(s, '\n') == 0
  {
    if s != [] {
      NoLineFeedCount(s[1..]);
    }
  }

  /** A url that contains `=` (a query string) turns the image into a code
      block, because the code test comes first. */
  lemma QueryStringUrlIsCode(url: string, k: nat)
    requires k < |url| && url[k] == '='
    ensures Classify(ImageMarkup(url)).CodeView?
  {
    assert ImageMarkup(url)[4 + k] == '=';
  }
}
