/** The navigation bar: the avatar initials and the highlighted main link. */
module Navigation {
  import opened Wrappers
  import Text

  /** The "no name" avatar, shared with the profile page. */
  const Anonymous: string := "U"

  /** The hrefs of the three main links, in the order they are drawn. */
  const MainLinks: seq<string> := ["/", "/tasks", "/analytics"]

  /** `getInitials`: "U" for an undefined or empty name; otherwise the first
      character of every space-separated word, upper-cased, and at most two
      of them. Empty words (leading, trailing or doubled spaces) add nothing. */
  function Initials(name: Option<string>): (r: string)
    ensures |r| <= 2
    ensures !Present(name) ==> r == Anonymous
    ensures Present(name) ==>
      var starts := Text.ToUpper(Text.WordStarts(name.value, true));
      r == if |starts| <= 2 then starts else starts[..2]
  {
    if !Present(name) then Anonymous
    else
      Text.FirstCharsOfSplit(name.value);
      var joined := Text.ToUpper(Text.FirstChars(Text.Split(name.value)));
      if |joined| <= 2 then joined else joined[..2]
  }

  /** A name of spaces only is given, so it is not "U", yet no word of it has
      a first character: the avatar is empty. */
  lemma BlankNameHasNoInitials(name: string)
    requires name != "" && forall i :: 0 <= i < |name| ==> name[i] == ' '
    ensures Initials(Some(name)) == ""
  {
    Text.NoWordStartsInSpaces(name, true);
  }

  /** A main link is highlighted exactly when the path is its href. */
  predicate IsActive(pathname: string, href: string)
  {
    pathname == href
  }

  /** The indices of the highlighted main links. */
  function ActiveLinks(pathname: string): set<nat>
  {
    set k: nat | k < |MainLinks| && IsActive(pathname, MainLinks[k])
  }

  /** At most one main link is highlighted, and one is exactly when the
      path is one of the three hrefs. */
  lemma AtMostOneActive(pathname: string)
    ensures |ActiveLinks(pathname)| <= 1
    ensures |ActiveLinks(pathname)| == 1 <==> pathname in MainLinks
  {
    var r := ActiveLinks(pathname);
    if pathname == "/" {
      assert r == {0};
    } else if pathname == "/tasks" {
      assert r == {1};
    } else if pathname == "/analytics" {
      assert r == {2};
    } else {
      assert r == {};
    }
  }
}
