/**
 * The site header of components/navbar.tsx: the light/dark theme (resolved
 * at mount from the saved choice or the system preference, flipped and
 * saved by the toggle button), which of the four sun/moon icons is shown,
 * which post the header links to and the URL it copies.
 */
module Navbar {
  import opened Strings
  import opened Collections

  // ----- theme -----

  /** The theme as the page keeps it: the `isDark` state, the document's `dark` class, and the saved `theme` entry. */
  datatype Theme = Theme(isDark: bool, darkClass: bool, stored: Option<string>)

  /** The value saved for a theme. */
  function ThemeName(dark: bool): string {
    if dark then "dark" else "light"
  }

  /** The class matches the state, and a saved choice agrees with it. */
  predicate Consistent(t: Theme) {
    && t.darkClass == t.isDark
    && (t.stored == Some("dark") ==> t.isDark)
    && (t.stored == Some("light") ==> !t.isDark)
  }

  /** The mount effect: a saved "dark" or "light" wins, anything else follows the system preference. */
  function Mounted(t: Theme, prefersDark: bool): (r: Theme)
    ensures Consistent(r)
    ensures r.stored == t.stored
    ensures r.isDark == (t.stored == Some("dark") || (t.stored != Some("light") && prefersDark))
  {
    if t.stored == Some("dark") then Theme(true, true, t.stored)
    else if t.stored == Some("light") then Theme(false, false, t.stored)
    else Theme(prefersDark, prefersDark, t.stored)
  }

  /** `toggleTheme`: flips the theme, sets the class to match and saves the new choice. */
  function Toggled(t: Theme): (r: Theme)
    ensures r.isDark == !t.isDark
    ensures Consistent(r)
    ensures r.stored == Some(ThemeName(r.isDark))
  {
    Theme(!t.isDark, !t.isDark, Some(ThemeName(!t.isDark)))
  }

  /** With nothing usable saved, the page follows the system preference. */
  lemma NoSavedChoiceFollowsSystem(t: Theme, prefersDark: bool)
    requires t.stored != Some("dark") && t.stored != Some("light")
    ensures Mounted(t, prefersDark).isDark == prefersDark
    ensures Mounted(t, prefersDark).darkClass == prefersDark
  {
  }

  /** A toggled theme survives a reload: the next mount restores it whatever the system preference. */
  lemma ToggledThemeSurvivesReload(t: Theme, prefersDark: bool)
    ensures Mounted(Toggled(t), prefersDark) == Toggled(t)
  {
  }

  /** Toggling twice restores a consistent theme whose choice was saved. */
  lemma ToggleTwiceRestores(t: Theme)
    requires Consistent(t)
    requires t.stored == Some("dark") || t.stored == Some("light")
    ensures Toggled(Toggled(t)) == t
  {
  }

  // ----- the four icons -----

  /** The two suns and two moons stacked in the toggle button. */
  datatype Icon = RestingSun | HoverSun | RestingMoon | HoverMoon

  /** The condition under which each icon is drawn opaque. */
  predicate IconVisible(icon: Icon, isDark: bool, hovering: bool) {
    match icon
    case RestingSun => !isDark && !hovering
    case HoverSun => isDark && hovering
    case RestingMoon => isDark && !hovering
    case HoverMoon => !isDark && hovering
  }

  /** The icon the button shows; it is the only visible one. */
  function ShownIcon(isDark: bool, hovering: bool): (r: Icon)
    ensures IconVisible(r, isDark, hovering)
    ensures forall icon :: IconVisible(icon, isDark, hovering) ==> icon == r
  {
    if isDark then (if hovering then HoverSun else RestingMoon)
    else (if hovering then HoverMoon else RestingSun)
  }

  predicate IsSun(icon: Icon) {
    icon == RestingSun || icon == HoverSun
  }

  /** At rest the icon shows the current theme; under the pointer it previews the toggled one. */
  lemma IconPreviewsToggle(t: Theme, hovering: bool)
    ensures IsSun(ShownIcon(t.isDark, hovering)) <==> !(if hovering then Toggled(t) else t).isDark
  {
  }

  /** The button's title names the theme the toggle switches to. */
  function ToggleTitle(isDark: bool): (r: string)
    ensures StartsWith(r, "Switch to ")
  {
    if isDark then "Switch to light mode" else "Switch to dark mode"
  }

  lemma TitleNamesToggledTheme(t: Theme)
    ensures ToggleTitle(t.isDark) == "Switch to " + ThemeName(Toggled(t).isDark) + " mode"
  {
  }

  // ----- the post link -----

  /** `PostInfo` of context/PostContext.tsx (null is `None`). */
  datatype PostInfo = PostInfo(title: string, slug: string)

  /** What `usePostContext` returns: the current and the most recent post. */
  datatype PostContext = PostContext(currentPost: Option<PostInfo>, recentPost: Option<PostInfo>)

  /** `postToShow`; `None` for `context` is the hook throwing outside a provider. */
  function PostToShow(context: Option<PostContext>): (r: Option<PostInfo>)
    ensures context.None? ==> r.None?
    ensures r.Some? ==> context.Some? && (r == context.value.currentPost || r == context.value.recentPost)
    ensures context.Some? && context.value.currentPost.Some? ==> r == context.value.currentPost
    ensures context.Some? && context.value.currentPost.None? ==> r == context.value.recentPost
  {
    match context
    case None => None
    case Some(c) => if c.currentPost.Some? then c.currentPost else c.recentPost
  }

  /** The recent post is linked only when there is no current post. */
  lemma RecentPostIsFallback(context: PostContext)
    ensures PostToShow(Some(context)) == context.recentPost <==>
      context.currentPost.None? || context.currentPost == context.recentPost
  {
  }

  const PostsBase: string := "https://some-scripting.com/posts/"

  /** `handleCopyClick`: the URL written to the clipboard, if any. */
  function CopiedUrl(post: Option<PostInfo>): (r: Option<string>)
    ensures r.Some? <==> post.Some? && post.value.slug != ""
    ensures r.Some? ==> StartsWith(r.value, PostsBase)
  {
    if post.Some? && post.value.slug != "" then Some(PostsBase + post.value.slug) else None
  }

  /** The slug is what follows the fixed prefix, so different posts copy different URLs. */
  lemma CopiedUrlNamesSlug(post: Option<PostInfo>, other: Option<PostInfo>)
    requires CopiedUrl(post).Some?
    ensures CopiedUrl(post).value[|PostsBase|..] == post.value.slug
    ensures CopiedUrl(other) == CopiedUrl(post) ==> other.value.slug == post.value.slug
  {
    assert (PostsBase + post.value.slug)[|PostsBase|..] == post.value.slug;
    if CopiedUrl(other) == CopiedUrl(post) {
      assert (PostsBase + other.value.slug)[|PostsBase|..] == other.value.slug;
    }
  }

  // ----- the component -----

  /** The header's state: its two `useState` values, the document class and the saved entry. */
  class Header {
    var isDark: bool
    var isHoveringTheme: bool
    var darkClass: bool
    var storedTheme: Option<string>

    function CurrentTheme(): Theme
      reads this
    {
      Theme(isDark, darkClass, storedTheme)
    }

    /** A first render: both states false; the document class and saved entry are whatever the browser holds. */
    constructor (darkClass: bool, storedTheme: Option<string>)
      ensures !isDark && !isHoveringTheme
      ensures this.darkClass == darkClass && this.storedTheme == storedTheme
    {
      isDark, isHoveringTheme := false, false;
      this.darkClass, this.storedTheme := darkClass, storedTheme;
    }

    /** The mount effect; without a `window` (server rendering) it does nothing. */
    method Mount(hasWindow: bool, prefersDark: bool)
      modifies this`isDark, this`darkClass
      ensures CurrentTheme() == if hasWindow then Mounted(old(CurrentTheme()), prefersDark) else old(CurrentTheme())
    {
      if !hasWindow {
        return;
      }
      if storedTheme == Some("dark") {
        isDark := true;
        darkClass := true;
      } else if storedTheme == Some("light") {
        isDark := false;
        darkClass := false;
      } else {
        isDark := prefersDark;
        darkClass := prefersDark;
      }
    }

    /** `toggleTheme`; without a `window` it returns at once. */
    method ToggleTheme(hasWindow: bool)
      modifies this`isDark, this`darkClass, this`storedTheme
      ensures CurrentTheme() == if hasWindow then Toggled(old(CurrentTheme())) else old(CurrentTheme())
    {
      if !hasWindow {
        return;
      }
      if isDark {
        darkClass := false;
        storedTheme := Some("light");
        isDark := false;
      } else {
        darkClass := true;
        storedTheme := Some("dark");
        isDark := true;
      }
    }

    /** `onMouseEnter` and `onMouseLeave` of the toggle button. */
    method SetHovering(hovering: bool)
      modifies this`isHoveringTheme
      ensures isHoveringTheme == hovering
    {
      isHoveringTheme := hovering;
    }

    /** The icon drawn for the current state. */
    function VisibleIcon(): (r: Icon)
      reads this
      ensures IconVisible(r, isDark, isHoveringTheme)
    {
      ShownIcon(isDark, isHoveringTheme)
    }
  }
}
