/**
 * The values the feedback window works with, and the pure computations of
 * feedback_ui.py: the result record, the countdown arithmetic, the layout of
 * the submitted feedback text, duplicate-free appending to the attachment
 * lists, and the POSIX path helpers the window uses.
 */
module FeedbackModel {
  import opened Wrappers
  import opened Text

  /** The `FeedbackResult` record written back to the server as JSON. */
  datatype FeedbackResult = FeedbackResult(
    logs: string,
    interactiveFeedback: string,
    imagePath: string,
    imagePaths: seq<string>,
    contextFiles: seq<string>,
    timeoutTriggered: bool)

  /** The keep-alive text stored when the countdown runs out. */
  const KeepAliveText: string := "[会话保持] 等待用户输入中..."

  /** The text the "end" button puts in the editor before submitting. */
  const EndText: string := "结束"

  /** The result stored on expiry: keep-alive text, no attachments, flag set. */
  const TimeoutResult: FeedbackResult := FeedbackResult("", KeepAliveText, "", [], [], true)

  /** The result `run` returns when the window closed without storing one. */
  const EmptyResult: FeedbackResult := FeedbackResult("", "", "", [], [], false)

  /** A result whose timeout flag is set carries the keep-alive text and nothing else. */
  predicate KeepAliveShape(r: FeedbackResult) {
    r.timeoutTriggered ==> r == TimeoutResult
  }

  // ---------------------------------------------------------------- countdown

  /** `max(0, timeout_seconds - (now - start_time))` in whole seconds. */
  function Remaining(timeoutSeconds: int, startTime: int, now: int): (r: nat)
    ensures r >= timeoutSeconds - (now - startTime)
    ensures r == 0 || r == timeoutSeconds - (now - startTime)
    ensures r == 0 <==> now - startTime >= timeoutSeconds
  {
    if timeoutSeconds - (now - startTime) > 0 then timeoutSeconds - (now - startTime) else 0
  }

  /** Minutes and seconds shown on the countdown label. */
  datatype Clock = Clock(minutes: nat, seconds: nat)

  /** `remaining // 60` and `remaining % 60`. */
  function ClockOf(remaining: nat): (c: Clock)
    ensures c.seconds < 60
    ensures c.minutes * 60 + c.seconds == remaining
  {
    Clock(remaining / 60, remaining % 60)
  }

  /** What one update of the countdown does: expire, or show the clock in one of three styles. */
  datatype TimerDisplay =
    | TimeUp
    | LastMinute(clock: Clock)
    | LastTwoMinutes(clock: Clock)
    | Counting(clock: Clock)

  function Display(remaining: nat): (d: TimerDisplay)
    ensures d.TimeUp? <==> remaining == 0
    ensures d.LastMinute? <==> 0 < remaining <= 60
    ensures d.LastTwoMinutes? <==> 60 < remaining <= 120
    ensures d.Counting? <==> 120 < remaining
    ensures !d.TimeUp? ==> d.clock.seconds < 60 && d.clock.minutes * 60 + d.clock.seconds == remaining
  {
    if remaining <= 0 then TimeUp
    else if remaining <= 60 then LastMinute(ClockOf(remaining))
    else if remaining <= 120 then LastTwoMinutes(ClockOf(remaining))
    else Counting(ClockOf(remaining))
  }

  // ------------------------------------------------------ submitted feedback

  /** One `"  - p"` line per path. */
  function Bullets(paths: seq<string>): (lines: seq<string>)
    ensures |lines| == |paths|
    ensures forall k :: 0 <= k < |paths| ==> lines[k] == "  - " + paths[k]
  {
    seq(|paths|, k requires 0 <= k < |paths| => "  - " + paths[k])
  }

  const ImagesHeadOpen: string := "[图片 ("
  const ImagesHeadClose: string := "张):]\n"
  const ContextHead: string := "[上下文文件:]\n"

  /** The image section: a header with the number of images, then one line per image. */
  function ImagesSection(images: seq<string>): string {
    ImagesHeadOpen + IntString(|images|) + ImagesHeadClose + Join("\n", Bullets(images))
  }

  /** The context section: a header, then one line per file or folder. */
  function ContextSection(files: seq<string>): string {
    ContextHead + Join("\n", Bullets(files))
  }

  /**
   * Reference layout of the submitted feedback: the stripped text if it is
   * not empty, the image section if there are images, the context section if
   * there are context files, separated by blank lines.
   */
  function FeedbackSections(text: string, images: seq<string>, files: seq<string>): seq<string> {
    var withText := if text == "" then [] else [text];
    var withImages := if images == [] then withText else withText + [ImagesSection(images)];
    if files == [] then withImages else withImages + [ContextSection(files)]
  }

  function ComposeFeedback(typed: string, images: seq<string>, files: seq<string>): string {
    Join("\n\n", FeedbackSections(Strip(typed), images, files))
  }

  /** The record `_submit_feedback` stores for the editor text and the two attachment lists. */
  function SubmittedResult(typed: string, images: seq<string>, files: seq<string>): (r: FeedbackResult)
    ensures !r.timeoutTriggered && KeepAliveShape(r)
    ensures r.imagePaths == images && r.contextFiles == files
    ensures r.imagePath == if images == [] then "" else images[0]
  {
    FeedbackResult("", ComposeFeedback(typed, images, files), if images == [] then "" else images[0], images, files, false)
  }

  lemma SectionsNonEmpty(text: string, images: seq<string>, files: seq<string>)
    ensures forall k :: 0 <= k < |FeedbackSections(text, images, files)| ==> FeedbackSections(text, images, files)[k] != ""
  {
    var ss := FeedbackSections(text, images, files);
    forall k | 0 <= k < |ss| ensures ss[k] != "" {
      assert |ss[k]| >= 1 by {
        if images != [] && ss[k] == ImagesSection(images) {
          assert |ImagesSection(images)| >= |ImagesHeadOpen|;
        }
        if files != [] && ss[k] == ContextSection(files) {
          assert |ContextSection(files)| >= |ContextHead|;
        }
      }
    }
  }

  /** The feedback is empty exactly when the stripped text is empty and nothing is attached. */
  lemma ComposeFeedbackEmpty(typed: string, images: seq<string>, files: seq<string>)
    ensures ComposeFeedback(typed, images, files) == "" <==> Strip(typed) == "" && images == [] && files == []
  {
    SectionsNonEmpty(Strip(typed), images, files);
    JoinEmpty("\n\n", FeedbackSections(Strip(typed), images, files));
  }

  /** Without attachments the feedback is the stripped editor text. */
  lemma ComposeFeedbackPlain(typed: string)
    ensures ComposeFeedback(typed, [], []) == Strip(typed)
  {
  }

  /** Non-empty text comes first, followed by a blank line when anything is attached. */
  lemma ComposeFeedbackLeadsWithText(typed: string, images: seq<string>, files: seq<string>)
    requires Strip(typed) != ""
    ensures var t := Strip(typed); var f := ComposeFeedback(typed, images, files);
      && |t| <= |f| && f[..|t|] == t
      && (images != [] || files != [] ==> |t| + 2 <= |f| && f[|t|..|t| + 2] == "\n\n")
  {
    var t := Strip(typed);
    var ss := FeedbackSections(t, images, files);
    assert ss[0] == t;
    assert images != [] || files != [] ==> |ss| > 1;
    JoinLeads("\n\n", ss);
  }

  /** Text without surrounding whitespace is kept as it is at the head of the feedback. */
  lemma ComposeFeedbackLeadsWithUnpadded(text: string, images: seq<string>, files: seq<string>)
    requires text != "" && Unpadded(text)
    ensures var f := ComposeFeedback(text, images, files); |text| <= |f| && f[..|text|] == text
  {
    StripUnpadded(text);
    ComposeFeedbackLeadsWithText(text, images, files);
  }

  lemma StripEndText()
    ensures Strip(EndText) == EndText
  {
    assert Unpadded(EndText);
    StripUnpadded(EndText);
  }

  /** Feedback submitted with the end button starts with the end marker. */
  lemma EndFeedbackLeads(images: seq<string>, files: seq<string>)
    ensures var f := ComposeFeedback(EndText, images, files); |EndText| <= |f| && f[..|EndText|] == EndText
  {
    StripEndText();
    ComposeFeedbackLeadsWithText(EndText, images, files);
  }

  /** With context files, the feedback ends with the context section. */
  lemma ComposeFeedbackEndsWithContext(typed: string, images: seq<string>, files: seq<string>)
    requires files != []
    ensures var f := ComposeFeedback(typed, images, files); var c := ContextSection(files);
      |c| <= |f| && f[|f| - |c|..] == c
  {
    var t := Strip(typed);
    var front := (if t == "" then [] else [t]) + (if images == [] then [] else [ImagesSection(images)]);
    assert FeedbackSections(t, images, files) == front + [ContextSection(files)];
    JoinSnoc("\n\n", front, ContextSection(files));
  }

  /** The number in the image header reads back as the number of images. */
  lemma ImagesHeaderCount(images: seq<string>)
    ensures var s := ImagesSection(images);
      |ImagesHeadOpen| <= |s| && s[..|ImagesHeadOpen|] == ImagesHeadOpen
      && ParseDecimal(BeforeFirst(s[|ImagesHeadOpen|..], '张')) == Some(|images|)
  {
    var n := IntString(|images|);
    var rest := ImagesHeadClose[1..] + Join("\n", Bullets(images));
    assert ImagesSection(images)[|ImagesHeadOpen|..] == n + ['张'] + rest;
    IntStringAvoids(|images|, '张');
    BeforeFirstOfConcat(n, '张', rest);
    IntStringRoundTrip(|images|);
  }

  /** Every attached image path shows up in the feedback on a line of its own, as "  - " and the path. */
  lemma ImageLinesInFeedback(typed: string, images: seq<string>, files: seq<string>, k: int)
    requires 0 <= k < |images|
    ensures IsLineOf("  - " + images[k], ComposeFeedback(typed, images, files))
  {
    var lines := Bullets(images);
    LineOfItself(lines[k]);
    LineOfJoin("\n", lines, k, lines[k]);
    LineOfExtendedLeft(lines[k], ImagesHeadOpen + IntString(|images|) + ImagesHeadClose, Join("\n", lines));
    var ss := FeedbackSections(Strip(typed), images, files);
    var m := if Strip(typed) == "" then 0 else 1;
    assert ss[m] == ImagesSection(images);
    LineOfJoin("\n\n", ss, m, lines[k]);
  }

  /** Every context file or folder shows up in the feedback on a line of its own, as "  - " and the path. */
  lemma ContextLinesInFeedback(typed: string, images: seq<string>, files: seq<string>, k: int)
    requires 0 <= k < |files|
    ensures IsLineOf("  - " + files[k], ComposeFeedback(typed, images, files))
  {
    var lines := Bullets(files);
    LineOfItself(lines[k]);
    LineOfJoin("\n", lines, k, lines[k]);
    LineOfExtendedLeft(lines[k], ContextHead, Join("\n", lines));
    var ss := FeedbackSections(Strip(typed), images, files);
    assert ss[|ss| - 1] == ContextSection(files);
    LineOfJoin("\n\n", ss, |ss| - 1, lines[k]);
  }

  // ------------------------------------------------- duplicate-free append

  predicate NoDuplicates<T(==)>(s: seq<T>) {
    forall i, j :: 0 <= i < j < |s| ==> s[i] != s[j]
  }

  /** Position of the first occurrence of `x` in `s`. */
  function FirstIndex<T(==)>(s: seq<T>, x: T): (k: nat)
    requires x in s
    ensures k < |s| && s[k] == x
    ensures forall j :: 0 <= j < k ==> s[j] != x
  {
    if s[0] == x then 0 else 1 + FirstIndex(s[1..], x)
  }

  /** `for y in ys: if y not in xs: xs.append(y)`, as a value. */
  function AppendNew<T(==)>(xs: seq<T>, ys: seq<T>): seq<T>
    decreases |ys|
  {
    if ys == [] then xs else AppendNew(if ys[0] in xs then xs else xs + [ys[0]], ys[1..])
  }

  /** Appending a single entry adds it at the end unless it is already listed. */
  lemma AppendNewOne<T>(xs: seq<T>, y: T)
    ensures AppendNew(xs, [y]) == if y in xs then xs else xs + [y]
  {
    assert [y][1..] == [];
  }

  /** The old list is a prefix of the new one. */
  lemma {:induction false} AppendNewExtends<T>(xs: seq<T>, ys: seq<T>)
    ensures |xs| <= |AppendNew(xs, ys)| && AppendNew(xs, ys)[..|xs|] == xs
    decreases |ys|
  {
    if ys != [] {
      var xs' := if ys[0] in xs then xs else xs + [ys[0]];
      AppendNewExtends(xs', ys[1..]);
      assert AppendNew(xs, ys)[..|xs|] == AppendNew(xs', ys[1..])[..|xs'|][..|xs|];
    }
  }

  /** Exactly the old entries and the added ones are in the new list. */
  lemma {:induction false} AppendNewMembers<T>(xs: seq<T>, ys: seq<T>)
    ensures forall x :: x in AppendNew(xs, ys) <==> x in xs || x in ys
    decreases |ys|
  {
    if ys != [] {
      var xs' := if ys[0] in xs then xs else xs + [ys[0]];
      AppendNewMembers(xs', ys[1..]);
      assert ys == [ys[0]] + ys[1..];
    }
  }

  /** Appending this way never introduces a duplicate. */
  lemma {:induction false} AppendNewNoDuplicates<T>(xs: seq<T>, ys: seq<T>)
    requires NoDuplicates(xs)
    ensures NoDuplicates(AppendNew(xs, ys))
    decreases |ys|
  {
    if ys != [] {
      var xs' := if ys[0] in xs then xs else xs + [ys[0]];
      AppendNewNoDuplicates(xs', ys[1..]);
    }
  }

  lemma FirstIndexAt<T>(s: seq<T>, x: T, k: nat)
    requires k < |s| && s[k] == x
    requires forall j :: 0 <= j < k ==> s[j] != x
    ensures FirstIndex(s, x) == k
  {
  }

  /** Inserting an element that already occurs earlier shifts later first occurrences by one. */
  lemma FirstIndexSkip<T>(p: seq<T>, c: T, q: seq<T>, a: T)
    requires c in p && a in p + q
    ensures a in p + [c] + q
    ensures var k := FirstIndex(p + q, a);
      FirstIndex(p + [c] + q, a) == if k < |p| then k else k + 1
  {
    var s, t := p + q, p + [c] + q;
    var k := FirstIndex(s, a);
    if k < |p| {
      assert t[k] == a;
      forall j | 0 <= j < k ensures t[j] != a {
        assert t[j] == s[j];
      }
      FirstIndexAt(t, a, k);
    } else {
      assert a !in p by {
        forall j | 0 <= j < |p| ensures p[j] != a {
          assert s[j] == p[j];
        }
      }
      assert t[k + 1] == s[k];
      forall j | 0 <= j < k + 1 ensures t[j] != a {
        if j < |p| {
          assert t[j] == p[j];
        } else if j > |p| {
          assert t[j] == s[j - 1];
        }
      }
      FirstIndexAt(t, a, k + 1);
    }
  }

  /** Every entry of `r` occurs in `s`, and `r` lists them in the order of their first occurrence in `s`. */
  predicate InFirstAppearanceOrder<T(==)>(r: seq<T>, s: seq<T>) {
    forall i, j :: 0 <= i < j < |r| ==>
      r[i] in s && r[j] in s && FirstIndex(s, r[i]) < FirstIndex(s, r[j])
  }

  /** The new list is ordered by first appearance in the old entries followed by the added ones. */
  lemma {:induction false} AppendNewFirstAppearanceOrder<T>(xs: seq<T>, ys: seq<T>)
    requires NoDuplicates(xs)
    ensures InFirstAppearanceOrder(AppendNew(xs, ys), xs + ys)
    decreases |ys|
  {
    var r := AppendNew(xs, ys);
    if ys == [] {
      assert xs + ys == xs;
      forall i | 0 <= i < |xs| ensures FirstIndex(xs, xs[i]) == i {
        FirstIndexAt(xs, xs[i], i);
      }
    } else if ys[0] in xs {
      var q := ys[1..];
      assert r == AppendNew(xs, q);
      AppendNewFirstAppearanceOrder(xs, q);
      AppendNewMembers(xs, q);
      OrderAfterSkip(xs, ys[0], q, r);
      assert xs + ys == xs + [ys[0]] + q;
    } else {
      var xs' := xs + [ys[0]];
      assert xs' + ys[1..] == xs + ys;
      assert r == AppendNew(xs', ys[1..]);
      assert NoDuplicates(xs');
      AppendNewFirstAppearanceOrder(xs', ys[1..]);
    }
  }

  /** Inserting an entry that already occurs earlier keeps a first-appearance order. */
  lemma OrderAfterSkip<T>(p: seq<T>, c: T, q: seq<T>, r: seq<T>)
    requires c in p
    requires forall x :: x in r <==> x in p || x in q
    requires InFirstAppearanceOrder(r, p + q)
    ensures InFirstAppearanceOrder(r, p + [c] + q)
  {
    forall i, j | 0 <= i < j < |r|
      ensures r[i] in p + [c] + q && r[j] in p + [c] + q
      ensures FirstIndex(p + [c] + q, r[i]) < FirstIndex(p + [c] + q, r[j])
    {
      FirstIndexSkip(p, c, q, r[i]);
      FirstIndexSkip(p, c, q, r[j]);
    }
  }

  // ------------------------------------------------------------------ paths

  /** `os.path.join(directory, name)` on POSIX. */
  function JoinPath(directory: string, name: string): string {
    if name != [] && name[0] == '/' then name
    else if directory == [] || directory[|directory| - 1] == '/' then directory + name
    else directory + "/" + name
  }

  /** File name of the `counter`-th pasted image of process `pid`. */
  function TempImageName(pid: int, counter: int): string {
    "mcp_feedback_image_" + IntString(pid) + "_" + IntString(counter) + ".png"
  }

  /** Different counter values give different temporary image names. */
  lemma TempImageNameInjective(pid: int, m: int, n: int)
    requires TempImageName(pid, m) == TempImageName(pid, n)
    ensures m == n
  {
    var head := "mcp_feedback_image_" + IntString(pid) + "_";
    var a, b := IntString(m) + ".png", IntString(n) + ".png";
    assert TempImageName(pid, m) == head + a;
    assert TempImageName(pid, n) == head + b;
    assert (head + a)[|head|..] == a;
    assert (head + b)[|head|..] == b;
    assert a[..|IntString(m)|] == IntString(m);
    assert b[..|IntString(n)|] == IntString(n);
    IntStringInjective(m, n);
  }

  /** Joining one directory with two different relative names gives two different paths. */
  lemma JoinPathInjective(directory: string, a: string, b: string)
    requires a != [] && a[0] != '/' && b != [] && b[0] != '/'
    requires JoinPath(directory, a) == JoinPath(directory, b)
    ensures a == b
  {
    var prefix := if directory == [] || directory[|directory| - 1] == '/' then directory else directory + "/";
    assert JoinPath(directory, a) == prefix + a;
    assert JoinPath(directory, b) == prefix + b;
    assert (prefix + a)[|prefix|..] == a;
    assert (prefix + b)[|prefix|..] == b;
  }

  /** Pasted images with different counter values are saved under different paths. */
  lemma TempImagePathsDistinct(tempDir: string, pid: int, m: int, n: int)
    requires m != n
    ensures JoinPath(tempDir, TempImageName(pid, m)) != JoinPath(tempDir, TempImageName(pid, n))
  {
    var a, b := TempImageName(pid, m), TempImageName(pid, n);
    assert a[0] == 'm' && b[0] == 'm';
    if JoinPath(tempDir, a) == JoinPath(tempDir, b) {
      JoinPathInjective(tempDir, a, b);
      TempImageNameInjective(pid, m, n);
    }
  }

  /** `p.rfind('/') + 1`: where the last path component starts. */
  function AfterLastSlash(p: string): (i: nat)
    ensures i <= |p|
    ensures i > 0 ==> p[i - 1] == '/'
    ensures '/' !in p[i..]
  {
    if p == [] then 0
    else if p[|p| - 1] == '/' then |p|
    else
      var i := AfterLastSlash(p[..|p| - 1]);
      assert p[i..] == p[..|p| - 1][i..] + [p[|p| - 1]];
      i
  }

  /** `head.rstrip('/')`. */
  function TrimSlashes(head: string): (r: string)
    ensures |r| <= |head| && r == head[..|r|]
    ensures forall k :: |r| <= k < |head| ==> head[k] == '/'
    ensures r == [] || r[|r| - 1] != '/'
  {
    if head != [] && head[|head| - 1] == '/' then TrimSlashes(head[..|head| - 1]) else head
  }

  predicate AllSlashes(s: string) {
    forall k :: 0 <= k < |s| ==> s[k] == '/'
  }

  /** `os.path.dirname(p)` on POSIX. */
  function Dirname(p: string): (d: string)
    ensures |d| <= AfterLastSlash(p) && d == p[..|d|]
    ensures forall k :: |d| <= k < AfterLastSlash(p) ==> p[k] == '/'
    ensures AllSlashes(p[..AfterLastSlash(p)]) ==> d == p[..AfterLastSlash(p)]
    ensures d == [] <==> '/' !in p
    ensures d != [] && !AllSlashes(d) ==> d[|d| - 1] != '/'
  {
    var i := AfterLastSlash(p);
    var head := p[..i];
    assert '/' in p ==> i > 0 by {
      if i == 0 {
        assert p[i..] == p;
      }
    }
    if head != [] && !AllSlashes(head) then
      var d := TrimSlashes(head);
      assert d[0] == p[0];
      assert '/' in p;
      d
    else
      assert i > 0 ==> head[i - 1] == '/';
      head
  }

  /** The contract of `Dirname` determines its result: any string meeting it is `Dirname(p)`. */
  lemma DirnameDetermined(p: string, d: string)
    requires |d| <= AfterLastSlash(p) && d == p[..|d|]
    requires forall k :: |d| <= k < AfterLastSlash(p) ==> p[k] == '/'
    requires AllSlashes(p[..AfterLastSlash(p)]) ==> d == p[..AfterLastSlash(p)]
    requires d == [] <==> '/' !in p
    requires d != [] && !AllSlashes(d) ==> d[|d| - 1] != '/'
    ensures d == Dirname(p)
  {
    var e := Dirname(p);
    var i := AfterLastSlash(p);
    if !AllSlashes(p[..i]) {
      assert EndsBeforeSlashes(p, d) by { NotAllSlashesEnd(p, i, d); }
      assert EndsBeforeSlashes(p, e) by { NotAllSlashesEnd(p, i, e); }
      SameEndBeforeSlashes(p, i, d, e);
    }
  }

  /** `d` is a non-empty prefix of `p` that does not end with a slash. */
  predicate EndsBeforeSlashes(p: string, d: string) {
    0 < |d| <= |p| && d == p[..|d|] && d[|d| - 1] != '/' && p[|d| - 1] == d[|d| - 1]
  }

  /** Two prefixes ending on a non-slash, with only slashes after them up to `i`, are the same length. */
  lemma SameEndBeforeSlashes(p: string, i: int, d: string, e: string)
    requires EndsBeforeSlashes(p, d) && EndsBeforeSlashes(p, e) && |d| <= i && |e| <= i <= |p|
    requires forall k :: |d| <= k < i ==> p[k] == '/'
    requires forall k :: |e| <= k < i ==> p[k] == '/'
    ensures |d| == |e|
  {
  }

  /** When the head of `p` is not all slashes, a candidate directory meeting the contract ends on a non-slash. */
  lemma NotAllSlashesEnd(p: string, i: nat, d: string)
    requires i <= |p| && !AllSlashes(p[..i])
    requires |d| <= i && d == p[..|d|]
    requires forall k :: |d| <= k < i ==> p[k] == '/'
    requires d != [] && !AllSlashes(d) ==> d[|d| - 1] != '/'
    ensures EndsBeforeSlashes(p, d)
  {
    var k :| 0 <= k < i && p[..i][k] != '/';
    PrefixReachesNonSlash(p, i, d, k);
    assert !AllSlashes(d);
  }


  /** A prefix followed only by slashes up to `i` contains every non-slash before `i`. */
  lemma PrefixReachesNonSlash(p: string, i: int, d: string, k: int)
    requires |d| <= i <= |p| && d == p[..|d|]
    requires forall j :: |d| <= j < i ==> p[j] == '/'
    requires 0 <= k < i && p[k] != '/'
    ensures k < |d| && d[k] != '/'
  {
  }
}
