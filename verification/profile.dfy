/** The profile page: the avatar initials, the tab chosen from the URL and
    the password form's confirmation gate. */
module Profile {
  import opened Wrappers
  import Text
  import Navigation

  /** The tabs the URL may switch to, and the one shown by default. */
  const Tabs: seq<string> := ["profile", "security", "preferences"]
  const DefaultTab: string := "profile"

  /** `ProfileAvatar`: the first character of every space-separated word,
      upper-cased, with no cap on their number; "U" when there are none. */
  function AvatarInitials(name: string): (r: string)
    ensures r != ""
    ensures var starts := Text.ToUpper(Text.WordStarts(name, true));
      r == if starts == "" then Navigation.Anonymous else starts
  {
    Text.FirstCharsOfSplit(name);
    var joined := Text.ToUpper(Text.FirstChars(Text.Split(name)));
    if joined == "" then Navigation.Anonymous else joined
  }

  /** Every word of the name gives one initial: the avatar of a name with
      `n` words that each start with a non-space is `n` characters long. */
  lemma {:induction false} OneInitialPerWord(words: seq<string>)
    requires |words| >= 1
    requires forall k :: 0 <= k < |words| ==> words[k] != "" && ' ' !in words[k]
    ensures |AvatarInitials(Text.Join(words))| == |words|
  {
    SplitOfJoin(words);
    FirstCharsOfWords(words);
  }

  /** `split(" ")` undoes `join(" ")` on words without spaces. */
  lemma {:induction false} SplitOfJoin(words: seq<string>)
    requires |words| >= 1
    requires forall k :: 0 <= k < |words| ==> ' ' !in words[k]
    ensures Text.Split(Text.Join(words)) == words
  {
    if |words| == 1 {
      SplitOfWord(words[0]);
    } else {
      SplitOfJoin(words[1..]);
      SplitOfWordThenSpace(words[0], Text.Join(words[1..]));
      assert words == [words[0]] + words[1..];
    }
  }

  lemma {:induction false} SplitOfWord(w: string)
    requires ' ' !in w
    ensures Text.Split(w) == [w]
  {
    if w != [] {
      assert w[0] in w && forall c :: c in w[1..] ==> c in w;
      SplitOfWord(w[1..]);
      assert [w[0]] + w[1..] == w;
    }
  }

  lemma {:induction false} SplitOfWordThenSpace(w: string, rest: string)
    requires ' ' !in w
    ensures Text.Split(w + " " + rest) == [w] + Text.Split(rest)
  {
    if w == [] {
      assert w + " " + rest == [' '] + rest;
    } else {
      assert w[0] in w && forall c :: c in w[1..] ==> c in w;
      SplitOfWordThenSpace(w[1..], rest);
      assert (w + " " + rest)[1..] == w[1..] + " " + rest;
      assert [w[0]] + w[1..] == w;
    }
  }

  lemma {:induction false} FirstCharsOfWords(words: seq<string>)
    requires forall k :: 0 <= k < |words| ==> words[k] != ""
    ensures |Text.FirstChars(words)| == |words|
  {
    if words != [] {
      FirstCharsOfWords(words[1..]);
    }
  }

  /** The tab shown first: the `tab` parameter as given, or "profile". */
  function InitialTab(tab: Option<string>): (r: string)
    ensures Present(tab) ==> r == tab.value
    ensures !Present(tab) ==> r == DefaultTab
  {
    if Present(tab) then tab.value else DefaultTab
  }

  /** A later change of the URL switches to a known tab and leaves the tab
      alone otherwise. */
  function NextTab(current: string, tab: Option<string>): (r: string)
    ensures r == current || r in Tabs
    ensures tab.Some? && tab.value in Tabs ==> r == tab.value
    ensures (tab.None? || tab.value !in Tabs) ==> r == current
  {
    if Present(tab) && tab.value in Tabs then tab.value else current
  }

  /** The tab after a series of URL changes. */
  function Replay(current: string, changes: seq<Option<string>>): string
    decreases changes
  {
    if changes == [] then current else Replay(NextTab(current, changes[0]), changes[1..])
  }

  /** Once a known tab shows, URL changes never leave the known tabs. */
  lemma {:induction false} KnownTabStaysKnown(current: string, changes: seq<Option<string>>)
    requires current in Tabs
    ensures Replay(current, changes) in Tabs
    decreases changes
  {
    if changes != [] {
      KnownTabStaysKnown(NextTab(current, changes[0]), changes[1..]);
    }
  }

  /** An unknown first tab stays until the URL names a known one. */
  lemma {:induction false} UnknownTabPersists(current: string, changes: seq<Option<string>>)
    requires forall k :: 0 <= k < |changes| ==> changes[k].None? || changes[k].value !in Tabs
    ensures Replay(current, changes) == current
  {
    if changes != [] {
      UnknownTabPersists(current, changes[1..]);
    }
  }

  /** The three fields of the password form. */
  datatype PasswordForm = PasswordForm(currentPassword: string, newPassword: string, confirmPassword: string)

  /** What the API call receives: the confirmation is not sent. */
  datatype PasswordChange = PasswordChange(currentPassword: string, newPassword: string)

  /** What submitting the form does: the call it makes, if any, and the form
      afterwards. */
  datatype Submitted = Submitted(sent: Option<PasswordChange>, form: PasswordForm)

  const EmptyForm := PasswordForm("", "", "")

  /** `handlePasswordUpdate`, with the outcome of the call as `accepted`: a
      mismatch stops before the call and keeps the fields; an accepted call
      clears all three; a failed call keeps them. */
  function SubmitPassword(form: PasswordForm, accepted: bool): (r: Submitted)
    ensures form.newPassword != form.confirmPassword ==> r.sent.None? && r.form == form
    ensures form.newPassword == form.confirmPassword ==>
      r.sent == Some(PasswordChange(form.currentPassword, form.newPassword))
    ensures r.form == (if r.sent.Some? && accepted then EmptyForm else form)
  {
    if form.newPassword != form.confirmPassword then Submitted(None, form)
    else
      var sent := Some(PasswordChange(form.currentPassword, form.newPassword));
      Submitted(sent, if accepted then EmptyForm else form)
  }
}
