/** The create-bucket dialog: the two checks a name goes through before the
    store is called, and what the dialog shows after each outcome. */
module CreateBucketDialog {
  import opened Common
  import opened Api

  // ---------------------------------------------------------------- trimming

  /** The characters `String.prototype.trim` strips: the ECMAScript
      WhiteSpace set (tab, vertical tab, form feed, space, no-break space,
      byte order mark and the Unicode space separators) and the line
      terminators. */
  predicate IsJsWhitespace(c: char)
  {
    || c == '\t' || c == '\n' || c == '\U{000B}' || c == '\U{000C}' || c == '\r' || c == ' '
    || c == '\U{00A0}' || c == '\U{1680}' || ('\U{2000}' <= c <= '\U{200A}')
    || c == '\U{2028}' || c == '\U{2029}' || c == '\U{202F}' || c == '\U{205F}'
    || c == '\U{3000}' || c == '\U{FEFF}'
  }

  ghost predicate AllWhitespace(s: string)
  {
    forall i :: 0 <= i < |s| ==> IsJsWhitespace(s[i])
  }

  /** `r` is `s[i..j]` and only whitespace was cut off either end. */
  ghost predicate CutWhitespace(s: string, r: string, i: int, j: int)
  {
    0 <= i <= j <= |s| && r == s[i..j] && AllWhitespace(s[..i]) && AllWhitespace(s[j..])
  }

  /** A leading whitespace character can join the part cut off the front. */
  lemma CutOneMore(s: string, r: string, i: int)
    requires |s| > 0 && IsJsWhitespace(s[0])
    requires CutWhitespace(s[1..], r, i, |s| - 1)
    ensures CutWhitespace(s, r, i + 1, |s|)
  {
    assert s[..i + 1] == [s[0]] + s[1..][..i];
  }

  /** A trailing whitespace character can join the part cut off the back. */
  lemma CutOneLess(s: string, r: string, j: int)
    requires |s| > 0 && IsJsWhitespace(s[|s| - 1])
    requires CutWhitespace(s[..|s| - 1], r, 0, j)
    ensures CutWhitespace(s, r, 0, j)
  {
    assert s[j..] == s[..|s| - 1][j..] + [s[|s| - 1]];
  }

  /** Cutting nothing. */
  lemma CutNothing(s: string)
    ensures CutWhitespace(s, s, 0, |s|)
  {
    assert s[..0] == [] && s[|s|..] == [];
  }

  /** Cutting the front of `s` and then the back of what is left. */
  lemma CutBoth(s: string, t: string, r: string, i: int, k: int)
    requires CutWhitespace(s, t, i, |s|)
    requires CutWhitespace(t, r, 0, k)
    ensures CutWhitespace(s, r, i, i + k)
  {
    assert r == s[i..i + k];
    assert s[i + k..] == t[k..];
  }

  function TrimStart(s: string): (r: string)
    ensures exists i :: CutWhitespace(s, r, i, |s|)
    ensures |r| > 0 ==> !IsJsWhitespace(r[0])
  {
    if |s| > 0 && IsJsWhitespace(s[0]) then
      var r := TrimStart(s[1..]);
      ghost var i :| CutWhitespace(s[1..], r, i, |s| - 1);
      CutOneMore(s, r, i);
      r
    else
      CutNothing(s);
      s
  }

  function TrimEnd(s: string): (r: string)
    ensures exists j :: CutWhitespace(s, r, 0, j)
    ensures |r| > 0 ==> !IsJsWhitespace(r[|r| - 1])
  {
    if |s| > 0 && IsJsWhitespace(s[|s| - 1]) then
      var r := TrimEnd(s[..|s| - 1]);
      ghost var j :| CutWhitespace(s[..|s| - 1], r, 0, j);
      CutOneLess(s, r, j);
      r
    else
      CutNothing(s);
      s
  }

  /** `String.prototype.trim`. */
  function Trim(s: string): (r: string)
    ensures exists i, j :: CutWhitespace(s, r, i, j)
    ensures |r| > 0 ==> !IsJsWhitespace(r[0]) && !IsJsWhitespace(r[|r| - 1])
  {
    var t := TrimStart(s);
    ghost var i :| CutWhitespace(s, t, i, |s|);
    var r := TrimEnd(t);
    ghost var k :| CutWhitespace(t, r, 0, k);
    CutBoth(s, t, r, i, k);
    assert |r| > 0 ==> r[0] == t[0];
    r
  }

  /** If only whitespace was cut and nothing is left, all of it was whitespace. */
  lemma CutToNothing(s: string, i: int, j: int)
    requires CutWhitespace(s, [], i, j)
    ensures AllWhitespace(s)
  {
    assert i == j;
    forall k | 0 <= k < |s| ensures IsJsWhitespace(s[k])
    {
      if k < i { assert s[k] == s[..i][k]; } else { assert s[k] == s[j..][k - j]; }
    }
  }

  /** If what is left starts with a non-whitespace character, not all of
      the name was whitespace. */
  lemma CutToSomething(s: string, r: string, i: int, j: int)
    requires CutWhitespace(s, r, i, j)
    requires |r| > 0 && !IsJsWhitespace(r[0])
    ensures !AllWhitespace(s)
  {
    assert r[0] == s[i];
  }

  /** A name trims to nothing exactly when every character is whitespace. */
  lemma TrimEmptyIffBlank(s: string)
    ensures Trim(s) == [] <==> AllWhitespace(s)
  {
    var r := Trim(s);
    var i, j :| CutWhitespace(s, r, i, j);
    if r == [] {
      CutToNothing(s, i, j);
    } else {
      CutToSomething(s, r, i, j);
    }
  }

  // ---------------------------------------------------------------- the name pattern

  predicate IsLowerAlnum(c: char)
  {
    'a' <= c <= 'z' || '0' <= c <= '9'
  }

  predicate IsNameChar(c: char)
  {
    IsLowerAlnum(c) || c == '.' || c == '-'
  }

  /** The language of `^[a-z0-9][a-z0-9.-]*[a-z0-9]$`, stated directly: at
      least two characters, all from `[a-z0-9.-]`, the first and the last
      from `[a-z0-9]`. */
  ghost predicate ValidName(s: string)
  {
    && |s| >= 2
    && IsLowerAlnum(s[0])
    && IsLowerAlnum(s[|s| - 1])
    && forall i :: 0 <= i < |s| ==> IsNameChar(s[i])
  }

  /** States of a left-to-right matcher for the pattern. */
  datatype Phase = Start | First | EndsAlnum | EndsPunct | Dead

  function Next(q: Phase, c: char): Phase
  {
    match q
    case Start => if IsLowerAlnum(c) then First else Dead
    case Dead => Dead
    case _ => if IsLowerAlnum(c) then EndsAlnum else if IsNameChar(c) then EndsPunct else Dead
  }

  /** The phase a prefix should leave the matcher in. */
  ghost function PhaseOf(p: string): Phase
  {
    if |p| == 0 then Start
    else if !IsLowerAlnum(p[0]) || exists i :: 0 <= i < |p| && !IsNameChar(p[i]) then Dead
    else if |p| == 1 then First
    else if IsLowerAlnum(p[|p| - 1]) then EndsAlnum
    else EndsPunct
  }

  /** Runs the matcher over the whole name, one character at a time. */
  method MatchesPattern(s: string) returns (ok: bool)
    ensures ok <==> ValidName(s)
  {
    var q := Start;
    var i := 0;
    while i < |s|
      invariant 0 <= i <= |s|
      invariant q == PhaseOf(s[..i])
    {
      assert s[..i + 1] == s[..i] + [s[i]];
      q := Next(q, s[i]);
      i := i + 1;
    }
    assert s[..i] == s;
    ok := q == EndsAlnum;
  }

  // ---------------------------------------------------------------- the dialog

  datatype Dialog = Dialog(name: string, error: Option<string>, submitting: bool)

  /** The dialog as it opens. */
  const Initial := Dialog("", None, false)

  const EmptyNameError := "Bucket name cannot be empty"
  const PatternError := "Bucket name can only contain lowercase letters, numbers, periods, and hyphens. It must start and end with a letter or number."
  const UnexpectedError := "An unexpected error occurred"

  /** What one submit did: the dialog after it, the name handed to
      `onCreateBucket` if it was called, and whether `onClose` was called. */
  datatype Submitted = Submitted(dialog: Dialog, created: Option<string>, closed: bool)

  /** Typing in the field replaces the name and clears any error. */
  function Edit(d: Dialog, text: string): (r: Dialog)
    ensures r.name == text && r.error == None && r.submitting == d.submitting
  {
    d.(name := text, error := None)
  }

  /** A submit: the empty check, then the pattern on the untrimmed name, then
      one call of `onCreateBucket` whose settled outcome is `created`. */
  method HandleSubmit(d: Dialog, created: Settled) returns (r: Submitted)
    ensures AllWhitespace(d.name) ==> r == Submitted(d.(error := Some(EmptyNameError)), None, false)
    ensures !AllWhitespace(d.name) && !ValidName(d.name) ==> r == Submitted(d.(error := Some(PatternError)), None, false)
    ensures r.created.Some? <==> ValidName(d.name)
    ensures r.created.Some? ==> r.created.value == d.name && !r.dialog.submitting
    ensures r.created.Some? && created.Resolved? ==> r.dialog == Dialog("", None, false) && r.closed
    ensures r.created.Some? && created.Rejected? ==>
      && r.dialog == Dialog(d.name, Some(CaughtMessage(created.reason, UnexpectedError)), false)
      && !r.closed
  {
    TrimEmptyIffBlank(d.name);
    if Trim(d.name) == [] {
      return Submitted(d.(error := Some(EmptyNameError)), None, false);
    }
    var ok := MatchesPattern(d.name);
    if !ok {
      return Submitted(d.(error := Some(PatternError)), None, false);
    }
    var busy := d.(error := None, submitting := true);
    match created
    case Resolved =>
      r := Submitted(busy.(name := "", submitting := false), Some(d.name), true);
    case Rejected(reason) =>
      r := Submitted(busy.(error := Some(CaughtMessage(reason, UnexpectedError)), submitting := false), Some(d.name), false);
  }

  /** A submit on the bucket page, where `onCreateBucket` calls the store's
      `createBucket` and its promise settles with the store's outcome. A
      valid new name adds its bucket and closes the dialog; a valid name
      already taken leaves the store alone and shows the store's
      "already exists" text; any other name never reaches the store. */
  method SubmitToStore(d: Dialog, s: Store, now: string) returns (r: Submitted, t: Store)
    ensures !ValidName(d.name) ==> t == s && r.created.None? && !r.closed
    ensures ValidName(d.name) && HasBucket(s.buckets, d.name) ==>
      && t == s
      && r == Submitted(Dialog(d.name, Some(Message(BucketExists(d.name))), false), Some(d.name), false)
    ensures ValidName(d.name) && !HasBucket(s.buckets, d.name) ==>
      && FetchBuckets(t) == FetchBuckets(s) + [Bucket(d.name, now, 0, 0)]
      && FetchObjects(t, d.name) == []
      && t.usage == s.usage
      && r == Submitted(Initial, Some(d.name), true)
  {
    var outcome := CreateBucket(s, d.name, now);
    r := HandleSubmit(d, Settle(outcome));
    t := if r.created.Some? && outcome.Ok? then outcome.store else s;
  }

  /** Cancel or dismiss: ignored while a submit is in flight, otherwise the
      field and error are cleared and `onClose` is called. */
  function HandleClose(d: Dialog): (r: (Dialog, bool))
    ensures d.submitting ==> r == (d, false)
    ensures !d.submitting ==> r == (Initial, true)
  {
    if d.submitting then (d, false) else (d.(name := "", error := None), true)
  }

  /** Names of the shapes the pattern is meant to keep out are rejected, so
      `onCreateBucket` is never called for them. */
  lemma RejectedShapes(s: string)
    ensures |s| == 1 ==> !ValidName(s)
    ensures (exists i :: 0 <= i < |s| && 'A' <= s[i] <= 'Z') ==> !ValidName(s)
    ensures |s| > 0 && (s[0] == '.' || s[0] == '-' || s[0] == ' ') ==> !ValidName(s)
    ensures |s| > 0 && (s[|s| - 1] == '.' || s[|s| - 1] == '-' || s[|s| - 1] == ' ') ==> !ValidName(s)
  {
  }

  /** A valid name never trims to nothing, so the empty-name check only
      ever fires on names the pattern rejects too. */
  lemma ValidNameIsNotBlank(s: string)
    requires ValidName(s)
    ensures !AllWhitespace(s)
  {
    assert !IsJsWhitespace(s[0]);
  }
}
