/**
 * The notification side (send_message_using_bot in main.py): one text per
 * graded attempt, chosen by `is_negative`, naming the lesson title and the
 * absolute lesson URL, sent in list order until a record lacks a key or a
 * send raises.
 */
module Notifier {
  import opened Wrappers
  import opened ReviewApi

  /** An attempt record whose three keys are all present. */
  datatype Attempt = Attempt(isNegative: bool, lessonTitle: string, lessonUrl: string)

  /** The record an attempt is read from. */
  function Encode(a: Attempt): AttemptRecord
  {
    AttemptRecord(Some(a.isNegative), Some(a.lessonTitle), Some(a.lessonUrl))
  }

  /** Reads `is_negative`, `lesson_title` and `lesson_url`; None when one is missing. */
  function Decode(r: AttemptRecord): (a: Option<Attempt>)
    ensures a.Some? <==> r.isNegative.Some? && r.lessonTitle.Some? && r.lessonUrl.Some?
    ensures a.Some? ==> Encode(a.value) == r
  {
    match (r.isNegative, r.lessonTitle, r.lessonUrl)
    case (Some(negative), Some(title), Some(url)) => Some(Attempt(negative, title, url))
    case _ => None
  }

  lemma DecodeEncode(a: Attempt)
    ensures Decode(Encode(a)) == Some(a)
  {
  }

  const Origin: string := "https://dvmn.org"

  /** The characters urlsplit strips from the front of a URL: C0 controls and space. */
  predicate IsControlOrSpace(c: char)
  {
    c <= ' '
  }

  /** The characters urlsplit deletes wherever they occur: tab, carriage return, line feed. */
  predicate IsUnsafe(c: char)
  {
    c == '\t' || c == '\r' || c == '\n'
  }

  /** `s` without its leading controls and spaces. */
  function StripLeading(s: string): (t: string)
    ensures |t| <= |s|
  {
    if s != [] && IsControlOrSpace(s[0]) then StripLeading(s[1..]) else s
  }

  /** StripLeading removes a prefix of controls and spaces, and no more. */
  lemma {:induction false} StripLeadingRemovesPrefix(s: string)
    ensures var t := StripLeading(s);
            && t == s[|s| - |t|..]
            && (forall i :: 0 <= i < |s| - |t| ==> IsControlOrSpace(s[i]))
            && (t == [] || !IsControlOrSpace(t[0]))
  {
    if s != [] && IsControlOrSpace(s[0]) {
      StripLeadingRemovesPrefix(s[1..]);
    }
  }

  /** `s` with every tab, carriage return and line feed deleted. */
  function RemoveUnsafe(s: string): (t: string)
    ensures |t| <= |s|
  {
    if s == [] then []
    else (if IsUnsafe(s[0]) then [] else [s[0]]) + RemoveUnsafe(s[1..])
  }

  /** RemoveUnsafe leaves no unsafe character, keeps a safe first one, and changes nothing without them. */
  lemma {:induction false} RemoveUnsafeRemovesAll(s: string)
    ensures var t := RemoveUnsafe(s);
            && (forall i :: 0 <= i < |t| ==> !IsUnsafe(t[i]))
            && ((forall i :: 0 <= i < |s| ==> !IsUnsafe(s[i])) ==> t == s)
            && (s != [] && !IsUnsafe(s[0]) ==> t != [] && t[0] == s[0])
  {
    if s != [] {
      RemoveUnsafeRemovesAll(s[1..]);
      var rest := RemoveUnsafe(s[1..]);
      var head := if IsUnsafe(s[0]) then [] else [s[0]];
      assert RemoveUnsafe(s) == head + rest;
      if forall i :: 0 <= i < |s| ==> !IsUnsafe(s[i]) {
        assert forall i :: 0 <= i < |s[1..]| ==> !IsUnsafe(s[1..][i]);
      }
    }
  }

  /** The reference as urlsplit reads it. */
  function Clean(rel: string): string
  {
    RemoveUnsafe(StripLeading(rel))
  }

  /** Cleaning a reference twice is cleaning it once. */
  lemma CleanIdempotent(rel: string)
    ensures Clean(Clean(rel)) == Clean(rel)
  {
    var t := StripLeading(rel);
    var r := RemoveUnsafe(t);
    StripLeadingRemovesPrefix(rel);
    RemoveUnsafeRemovesAll(t);
    if r != [] {
      assert !IsControlOrSpace(r[0]);
    }
    assert StripLeading(r) == r;
    RemoveUnsafeRemovesAll(r);
  }

  predicate NoDoubleSlash(s: string)
  {
    forall i :: 0 <= i < |s| - 1 ==> !(s[i] == '/' && s[i + 1] == '/')
  }

  /**
   * `s` with every run of slashes shortened to one: the empty segments a
   * relative path merge drops, keeping the first and the last segment.
   */
  function CollapseSlashes(s: string): (t: string)
    ensures |t| <= |s|
  {
    if |s| < 2 then s
    else if s[0] == '/' && s[1] == '/' then CollapseSlashes(s[1..])
    else [s[0]] + CollapseSlashes(s[1..])
  }

  /** The characters of `s` other than slashes, in order. */
  function WithoutSlashes(s: string): string
  {
    if s == [] then [] else (if s[0] == '/' then [] else [s[0]]) + WithoutSlashes(s[1..])
  }

  /**
   * CollapseSlashes removes only slashes, keeping every other character in
   * order; it leaves no two slashes in a row, keeps both ends, and changes
   * nothing without a double slash.
   */
  lemma {:induction false} CollapseSlashesCollapses(s: string)
    ensures var t := CollapseSlashes(s);
            && WithoutSlashes(t) == WithoutSlashes(s)
            && NoDoubleSlash(t)
            && (NoDoubleSlash(s) ==> t == s)
            && (s != [] ==> t != [] && t[0] == s[0] && t[|t| - 1] == s[|s| - 1])
    decreases |s|
  {
    if |s| >= 2 {
      CollapseSlashesCollapses(s[1..]);
      if s[0] == '/' && s[1] == '/' {
        assert WithoutSlashes(s) == WithoutSlashes(s[1..]);
      } else {
        var rest := CollapseSlashes(s[1..]);
        assert CollapseSlashes(s) == [s[0]] + rest;
        assert ([s[0]] + rest)[1..] == rest;
        if NoDoubleSlash(s) {
          assert NoDoubleSlash(s[1..]) by {
            forall i | 0 <= i < |s[1..]| - 1 ensures !(s[1..][i] == '/' && s[1..][i + 1] == '/') {
              assert s[1..][i] == s[i + 1] && s[1..][i + 1] == s[i + 2];
            }
          }
        }
        forall i | 0 <= i < |[s[0]] + rest| - 1
          ensures !(([s[0]] + rest)[i] == '/' && ([s[0]] + rest)[i + 1] == '/')
        {
          if i > 0 {
            assert ([s[0]] + rest)[i] == rest[i - 1] && ([s[0]] + rest)[i + 1] == rest[i];
          }
        }
      }
    }
  }

  /** A network-path reference "//authority/path", which keeps only the scheme of the base. */
  predicate IsNetworkPath(r: string)
  {
    |r| > 1 && r[0] == '/' && r[1] == '/'
  }

  /** A network-path reference whose authority is not empty. */
  predicate HasHost(r: string)
  {
    IsNetworkPath(r) && |r| > 2 && r[2] != '/'
  }

  /** A reference of the form "/path" that is not a network-path reference. */
  predicate IsAbsolutePath(r: string)
  {
    |r| > 0 && r[0] == '/' && !IsNetworkPath(r)
  }

  /** The index of the first slash at or after i, or |r|: where an authority begun before i ends. */
  function AuthorityEnd(r: string, i: nat): (k: nat)
    requires i <= |r|
    ensures i <= k <= |r| && (k == |r| || r[k] == '/')
    decreases |r| - i
  {
    if i == |r| || r[i] == '/' then i else AuthorityEnd(r, i + 1)
  }

  /** No slash lies between i and AuthorityEnd(r, i). */
  lemma {:induction false} AuthorityEndIsFirstSlash(r: string, i: nat)
    requires i <= |r|
    ensures forall j :: i <= j < AuthorityEnd(r, i) ==> r[j] != '/'
    decreases |r| - i
  {
    if i < |r| && r[i] != '/' {
      AuthorityEndIsFirstSlash(r, i + 1);
    }
  }

  /** The last segment of p, the part after its last slash, holds no ';'. */
  predicate LastSegmentPlain(p: string)
    decreases |p|
  {
    p == [] || p[|p| - 1] == '/' || (p[|p| - 1] != ';' && LastSegmentPlain(p[..|p| - 1]))
  }

  /**
   * The parameters of a path start after the first ';' of its last segment;
   * they are empty when that ';' is the last character.
   */
  predicate EndsWithEmptyParams(p: string)
  {
    |p| > 0 && p[|p| - 1] == ';' && LastSegmentPlain(p[..|p| - 1])
  }

  /** The path as urlunparse rebuilds it: an empty parameter list is not written back. */
  function DropEmptyParams(p: string): string
  {
    if EndsWithEmptyParams(p) then p[..|p| - 1] else p
  }

  /** Dropping an empty parameter list leaves a path without one, so a second drop changes nothing. */
  lemma DropEmptyParamsIdempotent(p: string)
    ensures !EndsWithEmptyParams(DropEmptyParams(p))
    ensures DropEmptyParams(DropEmptyParams(p)) == DropEmptyParams(p)
    ensures |DropEmptyParams(p)| >= |p| - 1
  {
  }

  /**
   * urljoin(Origin, rel) as urllib.parse computes it for references without
   * a scheme, query, fragment, dot segment or bracketed host. After cleaning:
   * nothing left gives the origin; "//host/path" replaces the authority;
   * "//" with an empty authority keeps the origin's host and the path after
   * it; "/path" replaces the origin's empty path; a relative path is
   * appended to "/" with its empty inner segments dropped. An empty
   * parameter list at the end of the path is not written back.
   */
  function LessonUrl(rel: string): (u: string)
    ensures Clean(rel) == "" ==> u == Origin
    ensures HasHost(Clean(rel)) ==>
              var k := AuthorityEnd(Clean(rel), 2);
              u == "https:" + Clean(rel)[..k] + DropEmptyParams(Clean(rel)[k..])
    ensures IsNetworkPath(Clean(rel)) && !HasHost(Clean(rel)) ==>
              u == Origin + DropEmptyParams(Clean(rel)[2..])
    ensures IsAbsolutePath(Clean(rel)) ==> u == Origin + DropEmptyParams(Clean(rel))
    ensures Clean(rel) != "" && Clean(rel)[0] != '/' ==>
              if DropEmptyParams(Clean(rel)) == "" then u == Origin
              else u == Origin + "/" + CollapseSlashes(DropEmptyParams(Clean(rel)))
  {
    var r := Clean(rel);
    if r == "" then Origin
    else if HasHost(r) then
      var k := AuthorityEnd(r, 2);
      "https:" + r[..k] + DropEmptyParams(r[k..])
    else if IsNetworkPath(r) then Origin + DropEmptyParams(r[2..])
    else if r[0] == '/' then Origin + DropEmptyParams(r)
    else
      var path := DropEmptyParams(r);
      if path == "" then Origin else Origin + "/" + CollapseSlashes(path)
  }

  /** A reference and its cleaned form give the same lesson URL. */
  lemma LessonUrlOfClean(rel: string)
    ensures LessonUrl(Clean(rel)) == LessonUrl(rel)
  {
    CleanIdempotent(rel);
  }

  /** Absolute lesson URLs of absolute paths determine the cleaned path up to an empty parameter list. */
  lemma LessonUrlInjective(p: string, q: string)
    requires IsAbsolutePath(Clean(p)) && IsAbsolutePath(Clean(q)) && LessonUrl(p) == LessonUrl(q)
    ensures DropEmptyParams(Clean(p)) == DropEmptyParams(Clean(q))
  {
    assert DropEmptyParams(Clean(p)) == LessonUrl(p)[|Origin|..];
  }

  /** A reference without leading controls or spaces and without unsafe characters is already clean. */
  lemma CleanOfPlain(rel: string)
    requires rel == [] || !IsControlOrSpace(rel[0])
    requires forall i :: 0 <= i < |rel| ==> !IsUnsafe(rel[i])
    ensures Clean(rel) == rel
  {
    RemoveUnsafeRemovesAll(rel);
  }

  /** An absolute path is appended to the origin. */
  lemma AbsolutePathExample()
    ensures LessonUrl("/x") == "https://dvmn.org/x"
  {
    CleanOfPlain("/x");
  }

  /** Empty authorities keep the origin's host. */
  lemma EmptyAuthorityExamples()
    ensures LessonUrl("//") == Origin
    ensures LessonUrl("///p") == "https://dvmn.org/p"
  {
    CleanOfPlain("//");
    CleanOfPlain("///p");
  }

  /** A non-empty authority replaces the origin's. */
  lemma NetworkPathExample()
    ensures LessonUrl("//h/p") == "https://h/p"
  {
    CleanOfPlain("//h/p");
  }

  /** Empty inner segments of a relative path are dropped. */
  lemma RelativePathExample()
    ensures LessonUrl("a//b") == "https://dvmn.org/a/b"
  {
    CleanOfPlain("a//b");
    assert "a//b"[..3] == "a//";
    assert !EndsWithEmptyParams("a//b");
    assert CollapseSlashes("/b") == "/b";
    assert CollapseSlashes("a//b") == "a/b";
  }

  /** A trailing slash of a relative path is kept. */
  lemma TrailingSlashExample()
    ensures LessonUrl("ab//") == "https://dvmn.org/ab/"
  {
    CleanOfPlain("ab//");
    assert !EndsWithEmptyParams("ab//");
    assert CollapseSlashes("b//") == "b/";
    assert CollapseSlashes("ab//") == "ab/";
  }

  /** Leading spaces and tabs are ignored. */
  lemma LeadingWhitespaceExamples()
    ensures LessonUrl(" /x") == "https://dvmn.org/x"
    ensures LessonUrl("\t/x") == "https://dvmn.org/x"
  {
    assert StripLeading(" /x") == "/x";
    assert StripLeading("\t/x") == "/x";
    CleanOfPlain("/x");
  }

  /** A reference that is only an empty parameter list gives the origin. */
  lemma EmptyParamsOnlyExample()
    ensures LessonUrl(";") == Origin
  {
    CleanOfPlain(";");
  }

  /** An empty parameter list ending an absolute path is dropped. */
  lemma EmptyParamsAbsoluteExample()
    ensures LessonUrl("/x;") == "https://dvmn.org/x"
  {
    CleanOfPlain("/x;");
    assert "/x;"[..2] == "/x";
    assert "/x"[..1] == "/";
    assert DropEmptyParams("/x;") == "/x";
    assert IsAbsolutePath("/x;");
  }

  /** An empty parameter list ending the path after an authority is dropped. */
  lemma EmptyParamsNetworkExample()
    ensures LessonUrl("//h/p;") == "https://h/p"
  {
    CleanOfPlain("//h/p;");
    assert AuthorityEnd("//h/p;", 2) == 3;
    assert "//h/p;"[..3] == "//h";
    assert "//h/p;"[3..] == "/p;";
    assert "/p;"[..2] == "/p";
    assert "/p"[..1] == "/";
    assert LastSegmentPlain("/p");
  }

  /** A non-empty parameter list is kept. */
  lemma NonEmptyParamsExample()
    ensures LessonUrl("a;b;") == "https://dvmn.org/a;b;"
  {
    CleanOfPlain("a;b;");
    assert "a;b;"[..3] == "a;b";
    assert "a;b"[..2] == "a;";
    assert !LastSegmentPlain("a;b");
    CollapseSlashesCollapses("a;b;");
  }

  /** A message text: fixed opening, lesson title, fixed middle, lesson URL, fixed closing. */
  datatype Template = Template(opening: string, middle: string, closing: string)

  /** The first line of both texts up to the title. */
  const Opening: string := "У вас проверили работу \""

  /** The dedented lines of the negative-review text, the title and the URL left out. */
  const RejectedAfterTitle: string := ".\" "
  const RejectedLine2: string := "К сожалению, в работе нашлись ошибки. "
  const RejectedLine3: string := "Посмотреть их можно по ссылке: "
  const RejectedMiddle: string := RejectedAfterTitle + "\n" + RejectedLine2 + "\n" + RejectedLine3

  /** The dedented lines of the approval text, the title and the URL left out. */
  const ApprovedAfterTitle: string := "\"  "
  const ApprovedLine2: string := "Преподавателю все понравилось, можно приступать к следующему уроку. "
  const ApprovedLine3: string := "Для этого можно перейти по ссылке: "
  const ApprovedMiddle: string := ApprovedAfterTitle + "\n" + ApprovedLine2 + "\n" + ApprovedLine3

  /** The URL line of both texts ends in the twelve spaces before the closing quotes. */
  const Closing: string := "            "

  const Rejected: Template := Template(Opening, RejectedMiddle, Closing)
  const Approved: Template := Template(Opening, ApprovedMiddle, Closing)

  function Render(t: Template, title: string, url: string): string
  {
    t.opening + title + t.middle + url + t.closing
  }

  /** The text sent for one attempt. */
  function Format(a: Attempt): string
  {
    Render(if a.isNegative then Rejected else Approved, a.lessonTitle, LessonUrl(a.lessonUrl))
  }

  ghost predicate OccursAt(s: string, part: string, i: int)
  {
    0 <= i <= |s| - |part| && s[i..i + |part|] == part
  }

  ghost predicate Contains(s: string, part: string)
  {
    exists i :: OccursAt(s, part, i)
  }

  /** A rendered text holds the title right after the opening and the URL right after the middle. */
  lemma {:induction false} RenderMentions(t: Template, title: string, url: string)
    ensures OccursAt(Render(t, title, url), title, |t.opening|)
    ensures OccursAt(Render(t, title, url), url, |t.opening| + |title| + |t.middle|)
  {
    var s := Render(t, title, url);
    var i := |t.opening|;
    var j := i + |title| + |t.middle|;
    assert s[i..i + |title|] == title;
    assert s[j..j + |url|] == url;
  }

  /** Both templates, whatever the title and URL, mention the title and the URL. */
  lemma FormatMentionsLesson(a: Attempt)
    ensures Contains(Format(a), a.lessonTitle)
    ensures Contains(Format(a), LessonUrl(a.lessonUrl))
  {
    RenderMentions(if a.isNegative then Rejected else Approved, a.lessonTitle, LessonUrl(a.lessonUrl));
  }

  /** The character right after the title is the first one of the middle. */
  lemma RenderAfterTitle(t: Template, title: string, url: string)
    requires |t.middle| > 0
    ensures |Render(t, title, url)| > |t.opening| + |title|
    ensures Render(t, title, url)[|t.opening| + |title|] == t.middle[0]
  {
  }

  /** For the same title and URL the two templates never give the same text. */
  lemma TemplatesDiffer(title: string, url: string)
    ensures Render(Rejected, title, url) != Render(Approved, title, url)
  {
    assert RejectedMiddle[0] == RejectedAfterTitle[0] == '.';
    assert ApprovedMiddle[0] == ApprovedAfterTitle[0] == '"';
    RenderAfterTitle(Rejected, title, url);
    RenderAfterTitle(Approved, title, url);
  }

  /** The negative template is used exactly for negative reviews, the approval one otherwise. */
  lemma FormatChoosesTemplate(a: Attempt)
    ensures Format(a) == Render(Rejected, a.lessonTitle, LessonUrl(a.lessonUrl)) <==> a.isNegative
    ensures Format(a) == Render(Approved, a.lessonTitle, LessonUrl(a.lessonUrl)) <==> !a.isNegative
  {
    TemplatesDiffer(a.lessonTitle, LessonUrl(a.lessonUrl));
  }

  /** The attempts whose texts were sent, and whether an exception cut the list short. */
  datatype Delivery = Delivery(delivered: seq<Attempt>, crashed: bool)

  /** Whether attempt i can be sent: all its keys are present and its send does not raise. */
  predicate Deliverable(attempts: seq<AttemptRecord>, i: nat, failAt: Option<nat>)
    requires i < |attempts|
  {
    Decode(attempts[i]).Some? && failAt != Some(i)
  }

  /**
   * The loop of send_message_using_bot from position i on. `failAt` is the
   * index of the first send the bot transport rejects, if any.
   */
  function DispatchFrom(attempts: seq<AttemptRecord>, i: nat, failAt: Option<nat>): (d: Delivery)
    requires i <= |attempts|
    ensures |d.delivered| <= |attempts| - i
    decreases |attempts| - i
  {
    if i == |attempts| then Delivery([], false)
    else match Decode(attempts[i])
      case None => Delivery([], true)
      case Some(a) =>
        if failAt == Some(i) then Delivery([], true)
        else
          var rest := DispatchFrom(attempts, i + 1, failAt);
          Delivery([a] + rest.delivered, rest.crashed)
  }

  /** One unfolding of DispatchFrom at a position inside the list. */
  lemma DispatchFromStep(attempts: seq<AttemptRecord>, i: nat, failAt: Option<nat>)
    requires i < |attempts|
    ensures !Deliverable(attempts, i, failAt) ==> DispatchFrom(attempts, i, failAt) == Delivery([], true)
    ensures Deliverable(attempts, i, failAt) ==>
              DispatchFrom(attempts, i, failAt) ==
              Delivery([Decode(attempts[i]).value] + DispatchFrom(attempts, i + 1, failAt).delivered,
                       DispatchFrom(attempts, i + 1, failAt).crashed)
  {
  }

  /** The loop invariant of SendMessages carried over one delivered attempt. */
  lemma DeliverNext(attempts: seq<AttemptRecord>, i: nat, failAt: Option<nat>, done: seq<Attempt>)
    requires i < |attempts| && Deliverable(attempts, i, failAt)
    requires DispatchFrom(attempts, 0, failAt) ==
             Delivery(done + DispatchFrom(attempts, i, failAt).delivered, DispatchFrom(attempts, i, failAt).crashed)
    ensures DispatchFrom(attempts, 0, failAt) ==
            Delivery((done + [Decode(attempts[i]).value]) + DispatchFrom(attempts, i + 1, failAt).delivered,
                     DispatchFrom(attempts, i + 1, failAt).crashed)
  {
    DispatchFromStep(attempts, i, failAt);
    var rest := DispatchFrom(attempts, i + 1, failAt).delivered;
    assert done + ([Decode(attempts[i]).value] + rest) == (done + [Decode(attempts[i]).value]) + rest;
  }

  /** The loop invariant of SendMessages where the loop stops, at the end or at an attempt it cannot send. */
  lemma DeliverStop(attempts: seq<AttemptRecord>, i: nat, failAt: Option<nat>, done: seq<Attempt>)
    requires i <= |attempts|
    requires DispatchFrom(attempts, 0, failAt) ==
             Delivery(done + DispatchFrom(attempts, i, failAt).delivered, DispatchFrom(attempts, i, failAt).crashed)
    ensures i == |attempts| ==> Dispatch(Some(attempts), failAt) == Delivery(done, false)
    ensures i < |attempts| && !Deliverable(attempts, i, failAt) ==>
              Dispatch(Some(attempts), failAt) == Delivery(done, true)
  {
    if i < |attempts| {
      DispatchFromStep(attempts, i, failAt);
    }
    assert done + [] == done;
  }

  /**
   * What the loop delivers from position i: the attempts from i on, in list
   * order, up to the first one that lacks a key or whose send raises; the
   * loop is cut short exactly when such an attempt exists.
   */
  lemma {:induction false} DispatchFromDelivers(attempts: seq<AttemptRecord>, i: nat, failAt: Option<nat>)
    requires i <= |attempts|
    ensures var d := DispatchFrom(attempts, i, failAt);
            && (forall j :: i <= j < i + |d.delivered| ==>
                  Deliverable(attempts, j, failAt) && Decode(attempts[j]) == Some(d.delivered[j - i]))
            && (d.crashed <==> |d.delivered| < |attempts| - i)
            && (d.crashed ==> !Deliverable(attempts, i + |d.delivered|, failAt))
    decreases |attempts| - i
  {
    if i < |attempts| {
      DispatchFromStep(attempts, i, failAt);
      DispatchFromDelivers(attempts, i + 1, failAt);
    }
  }

  /** send_message_using_bot on `response['new_attempts']`; a missing key raises before any send. */
  function Dispatch(newAttempts: Option<seq<AttemptRecord>>, failAt: Option<nat>): (d: Delivery)
    ensures newAttempts.None? ==> d.crashed && d.delivered == []
    ensures newAttempts.Some? ==> (d.crashed <==> |d.delivered| < |newAttempts.value|)
  {
    match newAttempts
    case None => Delivery([], true)
    case Some(attempts) =>
      DispatchFromDelivers(attempts, 0, failAt);
      DispatchFrom(attempts, 0, failAt)
  }

  /** The texts of the delivered attempts, in order. */
  function Texts(attempts: seq<Attempt>): seq<string>
  {
    seq(|attempts|, k requires 0 <= k < |attempts| => Format(attempts[k]))
  }

  /** A list of texts given element by element is the Texts of the attempts. */
  lemma TextsOf(sent: seq<string>, attempts: seq<Attempt>)
    requires |sent| == |attempts|
    requires forall k :: 0 <= k < |sent| ==> sent[k] == Format(attempts[k])
    ensures sent == Texts(attempts)
  {
  }

  /** When every attempt is well formed and every send succeeds, every attempt is sent, in list order. */
  lemma {:induction false} DispatchSendsEveryAttempt(attempts: seq<AttemptRecord>, failAt: Option<nat>)
    requires forall k :: 0 <= k < |attempts| ==> Decode(attempts[k]).Some?
    requires failAt.None? || failAt.value >= |attempts|
    ensures !Dispatch(Some(attempts), failAt).crashed
    ensures |Dispatch(Some(attempts), failAt).delivered| == |attempts|
    ensures forall k :: 0 <= k < |attempts| ==>
              Encode(Dispatch(Some(attempts), failAt).delivered[k]) == attempts[k]
  {
    DispatchFromDelivers(attempts, 0, failAt);
  }

  /** `sent` holds the text of each attempt, in order. */
  ghost predicate TextsFor(sent: seq<string>, attempts: seq<Attempt>)
  {
    |sent| == |attempts| && forall k :: 0 <= k < |sent| ==> sent[k] == Format(attempts[k])
  }

  lemma TextsForSnoc(sent: seq<string>, attempts: seq<Attempt>, a: Attempt)
    requires TextsFor(sent, attempts)
    ensures TextsFor(sent + [Format(a)], attempts + [a])
  {
  }

  /** The for loop of send_message_using_bot: one send per attempt, stopping at the first exception. */
  method SendMessages(newAttempts: Option<seq<AttemptRecord>>, failAt: Option<nat>)
    returns (sent: seq<string>, ok: bool)
    ensures |sent| == |Dispatch(newAttempts, failAt).delivered|
    ensures forall k :: 0 <= k < |sent| ==> sent[k] == Format(Dispatch(newAttempts, failAt).delivered[k])
    ensures ok == !Dispatch(newAttempts, failAt).crashed
  {
    if newAttempts.None? {
      return [], false;
    }
    var attempts := newAttempts.value;
    ghost var done: seq<Attempt> := [];
    sent := [];
    var i := 0;
    while i < |attempts|
      invariant 0 <= i <= |attempts|
      invariant TextsFor(sent, done)
      invariant DispatchFrom(attempts, 0, failAt) ==
                Delivery(done + DispatchFrom(attempts, i, failAt).delivered, DispatchFrom(attempts, i, failAt).crashed)
    {
      var attempt := Decode(attempts[i]);
      if attempt.None? || failAt == Some(i) {
        DeliverStop(attempts, i, failAt, done);
        return sent, false;
      }
      var text := Format(attempt.value);
      DeliverNext(attempts, i, failAt, done);
      TextsForSnoc(sent, done, attempt.value);
      sent := sent + [text];
      done := done + [attempt.value];
      i := i + 1;
    }
    DeliverStop(attempts, i, failAt, done);
    ok := true;
  }
}
