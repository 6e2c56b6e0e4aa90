/**
 * The page-level behaviour of the landing page: smooth-scroll navigation
 * clicks, the active link that follows the scroll position, the scroll
 * thresholds for the nav shadow and the scroll-to-top button, the single
 * on-screen notification and the contact-form checks.
 *
 * Layout values the browser computes (`offsetTop`, `offsetHeight`,
 * `pageYOffset`) are integer parameters.
 */
module Site {
  import opened Wrappers
  import opened Marks
  import opened Text

  /** The active link is chosen for a point this far below the top of the viewport. */
  const ActiveNavOffset: int := 100
  /** Past this scroll offset the nav bar gets the heavier shadow. */
  const ShadowThreshold: int := 50
  /** Past this scroll offset the scroll-to-top button is shown. */
  const ScrollTopThreshold: int := 300

  const FillAllFieldsMessage: string := "Please fill in all fields!"
  const InvalidEmailMessage: string := "Please enter a valid email address!"

  /** A `section[id]` of the page, with its `offsetTop` and `offsetHeight`. */
  datatype Section = Section(id: string, top: int, height: int)

  /** An element that carries an `id` attribute, with its `offsetTop`, in document order. */
  datatype Anchor = Anchor(id: string, offsetTop: int)

  datatype Kind = Success | Error
  datatype Notification = Notification(message: string, kind: Kind)

  /** What the submit handler decides, in the order it checks. */
  datatype Verdict = MissingField | InvalidEmail | Accepted

  /** The nav bar's heavier shadow is on. */
  predicate HeavyShadow(pageYOffset: int)
  {
    pageYOffset > ShadowThreshold
  }

  /** The scroll-to-top button is visible. */
  predicate ScrollTopShown(pageYOffset: int)
  {
    pageYOffset > ScrollTopThreshold
  }

  /** The half-open interval test of `updateActiveNav`. */
  predicate Covers(s: Section, scrollPos: int)
  {
    s.top <= scrollPos < s.top + s.height
  }

  /** The position of the last section, in document order, whose interval holds `scrollPos`. */
  function LastCovering(sections: seq<Section>, scrollPos: int): (r: Option<nat>)
    ensures r.None? <==> forall k | 0 <= k < |sections| :: !Covers(sections[k], scrollPos)
    ensures r.Some? ==> r.value < |sections| && Covers(sections[r.value], scrollPos)
    ensures r.Some? ==> forall m | r.value < m < |sections| :: !Covers(sections[m], scrollPos)
    decreases |sections|
  {
    if sections == [] then None
    else
      var n := |sections| - 1;
      if Covers(sections[n], scrollPos) then Some(n)
      else
        var init := sections[..n];
        assert forall k | 0 <= k < n :: init[k] == sections[k];
        LastCovering(init, scrollPos)
  }

  /** Link `i` is marked when its `href` is exactly `#id`. */
  function LinksFor(hrefs: seq<string>, id: string): (marks: seq<bool>)
    ensures |marks| == |hrefs|
    ensures forall i | 0 <= i < |hrefs| :: marks[i] <==> hrefs[i] == "#" + id
  {
    seq(|hrefs|, i requires 0 <= i < |hrefs| => hrefs[i] == "#" + id)
  }

  /** The active marks after `updateActiveNav`: the last covering section's link, or no change. */
  function ActiveAfterScroll(current: seq<bool>, hrefs: seq<string>, sections: seq<Section>, scrollPos: int): (marks: seq<bool>)
    ensures |current| == |hrefs| ==> |marks| == |hrefs|
  {
    match LastCovering(sections, scrollPos)
    case None => current
    case Some(k) => LinksFor(hrefs, sections[k].id)
  }

  /**
   * Stated against `Covers` alone: with no covering section the marks stay as
   * they were; otherwise exactly the links to the last covering section are marked.
   */
  lemma ActiveLinkIsLastCovering(current: seq<bool>, hrefs: seq<string>, sections: seq<Section>, scrollPos: int)
    ensures (forall k | 0 <= k < |sections| :: !Covers(sections[k], scrollPos)) ==>
      ActiveAfterScroll(current, hrefs, sections, scrollPos) == current
    ensures forall k | 0 <= k < |sections| && Covers(sections[k], scrollPos)
        && (forall m | k < m < |sections| :: !Covers(sections[m], scrollPos)) ::
      ActiveAfterScroll(current, hrefs, sections, scrollPos) == LinksFor(hrefs, sections[k].id)
  {
    var last := LastCovering(sections, scrollPos);
    if last.Some? {
      assert forall k | 0 <= k < |sections| && Covers(sections[k], scrollPos)
        && (forall m | k < m < |sections| :: !Covers(sections[m], scrollPos)) :: k == last.value;
    }
  }

  /** Running `updateActiveNav` again at the same scroll position changes nothing (so the debounced re-run is harmless). */
  lemma ActiveAfterScrollIdempotent(current: seq<bool>, hrefs: seq<string>, sections: seq<Section>, scrollPos: int)
    ensures ActiveAfterScroll(ActiveAfterScroll(current, hrefs, sections, scrollPos), hrefs, sections, scrollPos)
         == ActiveAfterScroll(current, hrefs, sections, scrollPos)
  {
  }

  /** With distinct hrefs, a covered section leaves at most one active link, and exactly one if some link targets it. */
  lemma {:induction false} LinksForCount(hrefs: seq<string>, id: string)
    requires forall i, j | 0 <= i < j < |hrefs| :: hrefs[i] != hrefs[j]
    ensures CountOn(LinksFor(hrefs, id)) == if "#" + id in hrefs then 1 else 0
    decreases |hrefs|
  {
    if hrefs != [] {
      var n := |hrefs| - 1;
      assert LinksFor(hrefs, id)[..n] == LinksFor(hrefs[..n], id);
      LinksForCount(hrefs[..n], id);
      if hrefs[n] == "#" + id {
        assert "#" + id !in hrefs[..n];
      }
      assert "#" + id in hrefs <==> ("#" + id in hrefs[..n] || hrefs[n] == "#" + id) by {
        assert hrefs == hrefs[..n] + [hrefs[n]];
      }
    }
  }

  /** `document.getElementById`: the first element with that id; no element has the empty id. */
  function FindById(anchors: seq<Anchor>, id: string): (r: Option<Anchor>)
    ensures r.Some? ==> id != "" && r.value in anchors && r.value.id == id
    ensures r.None? ==> id == "" || forall k | 0 <= k < |anchors| :: anchors[k].id != id
    ensures r.Some? ==> exists k | 0 <= k < |anchors| ::
      anchors[k] == r.value && forall m | 0 <= m < k :: anchors[m].id != id
  {
    if id == "" || anchors == [] then None
    else if anchors[0].id == id then Some(anchors[0])
    else
      var r := FindById(anchors[1..], id);
      assert r.Some? ==> exists k | 0 <= k < |anchors| ::
        anchors[k] == r.value && forall m | 0 <= m < k :: anchors[m].id != id by {
        if r.Some? {
          var k :| 0 <= k < |anchors[1..]| && anchors[1..][k] == r.value
            && forall m | 0 <= m < k :: anchors[1..][m].id != id;
          assert anchors[k + 1] == r.value;
          forall m | 0 <= m < k + 1 ensures anchors[m].id != id {
            if m > 0 { assert anchors[m] == anchors[1..][m - 1]; }
          }
        }
      }
      r
  }

  /** The section a nav link scrolls to: handled only for an `href` starting with '#' whose target exists. */
  function ClickTarget(href: string, anchors: seq<Anchor>): (r: Option<Anchor>)
    ensures r.Some? ==> |href| > 0 && href[0] == '#' && href == "#" + r.value.id && r.value in anchors
    ensures (|href| == 0 || href[0] != '#') ==> r.None?
    ensures |href| > 0 && href[0] == '#' ==> r == FindById(anchors, href[1..])
  {
    if |href| > 0 && href[0] == '#' then
      var r := FindById(anchors, href[1..]);
      assert r.Some? ==> href == "#" + href[1..];
      r
    else None
  }

  /** The submit handler's decision on the raw field values. */
  function Check(name: string, email: string, message: string): (v: Verdict)
    ensures v == Accepted ==> !IsBlank(name) && !IsBlank(message) && MatchesEmailPattern(Trim(email))
  {
    TrimEmptyIffBlank(name);
    TrimEmptyIffBlank(message);
    if Trim(name) == [] || Trim(email) == [] || Trim(message) == [] then MissingField
    else if !ValidEmail(Trim(email)) then InvalidEmail
    else Accepted
  }

  /**
   * The order of the checks: a blank field is reported whatever the email is;
   * a bad email is reported only when no field is blank; anything accepted has
   * a trimmed email that matches the regular expression.
   */
  lemma CheckOrder(name: string, email: string, message: string)
    ensures Check(name, email, message) == MissingField <==> IsBlank(name) || IsBlank(email) || IsBlank(message)
    ensures Check(name, email, message) == InvalidEmail <==>
      !IsBlank(name) && !IsBlank(email) && !IsBlank(message) && !MatchesEmailPattern(Trim(email))
    ensures Check(name, email, message) == Accepted ==> MatchesEmailPattern(Trim(email))
  {
    TrimEmptyIffBlank(name);
    TrimEmptyIffBlank(email);
    TrimEmptyIffBlank(message);
  }

  /**
   * The page's mutable state. `active[i]` is whether nav link `i` has the
   * `active` class; `menuChecked` is the mobile-menu checkbox (`None` when the
   * page has none); `scrollTarget` is the last `window.scrollTo` target set by
   * a nav click; `notifications` are the `.notification` elements in the body;
   * `sending` is the submit button's "Sending..." disabled state.
   */
  class Page {
    const hrefs: seq<string>
    const active: array<bool>
    var menuChecked: Option<bool>
    var scrollTarget: Option<int>
    var notifications: seq<Notification>
    var sending: bool
    var heavyShadow: bool
    var scrollTopVisible: bool
    var lastScroll: int

    ghost predicate Valid()
      reads this
    {
      active.Length == |hrefs| && |notifications| <= 1
    }

    constructor (links: seq<string>, initialActive: seq<bool>, checkbox: Option<bool>)
      requires |initialActive| == |links|
      ensures Valid() && fresh(active)
      ensures hrefs == links && active[..] == initialActive && menuChecked == checkbox
      ensures scrollTarget == None && notifications == [] && !sending
      ensures !heavyShadow && !scrollTopVisible && lastScroll == 0
    {
      hrefs := links;
      var a := new bool[|links|];
      forall i | 0 <= i < |links| {
        a[i] := initialActive[i];
      }
      active := a;
      menuChecked := checkbox;
      scrollTarget := None;
      notifications := [];
      sending := false;
      heavyShadow, scrollTopVisible := false, false;
      lastScroll := 0;
    }

    /** A click on nav link `k`: for an in-page target, close the menu, scroll below the nav bar, and make `k` the only active link. */
    method NavClick(k: nat, anchors: seq<Anchor>, navHeight: int)
      requires Valid() && k < |hrefs|
      modifies this, active
      ensures Valid()
      ensures match ClickTarget(hrefs[k], anchors)
        case None =>
          && active[..] == old(active[..])
          && menuChecked == old(menuChecked) && scrollTarget == old(scrollTarget)
        case Some(target) =>
          && active[..] == OneHot(|hrefs|, k)
          && menuChecked == (if old(menuChecked).Some? then Some(false) else None)
          && scrollTarget == Some(target.offsetTop - navHeight)
      ensures notifications == old(notifications) && sending == old(sending)
      ensures heavyShadow == old(heavyShadow) && scrollTopVisible == old(scrollTopVisible)
      ensures lastScroll == old(lastScroll)
    {
      var href := hrefs[k];
      if |href| > 0 && href[0] == '#' {
        var target := FindById(anchors, href[1..]);
        if target.Some? {
          if menuChecked.Some? {
            menuChecked := Some(false);
          }
          scrollTarget := Some(target.value.offsetTop - navHeight);
          for i := 0 to active.Length
            invariant forall m | 0 <= m < i :: !active[m]
            modifies active
          {
            active[i] := false;
          }
          active[k] := true;
        }
      }
    }

    /** `updateActiveNav`: for every covering section in order, clear all links and mark the one for `#id`. */
    method UpdateActiveNav(sections: seq<Section>, pageYOffset: int)
      requires Valid()
      modifies active
      ensures active[..] == ActiveAfterScroll(old(active[..]), hrefs, sections, pageYOffset + ActiveNavOffset)
    {
      var scrollPos := pageYOffset + ActiveNavOffset;
      for j := 0 to |sections|
        invariant active[..] == ActiveAfterScroll(old(active[..]), hrefs, sections[..j], scrollPos)
      {
        var section := sections[j];
        assert sections[..j + 1][..j] == sections[..j];
        if section.top <= scrollPos < section.top + section.height {
          for i := 0 to active.Length
            invariant forall m | 0 <= m < i :: active[m] == (hrefs[m] == "#" + section.id)
          {
            active[i] := false;
            if hrefs[i] == "#" + section.id {
              active[i] := true;
            }
          }
        }
      }
      assert sections[..|sections|] == sections;
    }

    /** The scroll listeners: nav shadow, active link, `lastScroll`, then the scroll-to-top button. */
    method OnScroll(pageYOffset: int, sections: seq<Section>)
      requires Valid()
      modifies this, active
      ensures Valid()
      ensures heavyShadow == HeavyShadow(pageYOffset)
      ensures scrollTopVisible == ScrollTopShown(pageYOffset)
      ensures scrollTopVisible ==> heavyShadow
      ensures active[..] == ActiveAfterScroll(old(active[..]), hrefs, sections, pageYOffset + ActiveNavOffset)
      ensures lastScroll == pageYOffset
      ensures menuChecked == old(menuChecked) && scrollTarget == old(scrollTarget)
      ensures notifications == old(notifications) && sending == old(sending)
    {
      heavyShadow := pageYOffset > ShadowThreshold;
      UpdateActiveNav(sections, pageYOffset);
      lastScroll := pageYOffset;
      scrollTopVisible := pageYOffset > ScrollTopThreshold;
    }

    /** `showNotification`: remove the first existing notification, then append the new one. */
    method ShowNotification(message: string, kind: Kind)
      requires Valid()
      modifies this`notifications
      ensures Valid()
      ensures notifications == [Notification(message, kind)]
    {
      if |notifications| > 0 {
        notifications := notifications[1..];
      }
      notifications := notifications + [Notification(message, kind)];
    }

    /** The contact form's submit handler, up to the simulated send. */
    method Submit(name: string, email: string, message: string)
      requires Valid()
      modifies this`notifications, this`sending
      ensures Valid()
      ensures Check(name, email, message) == MissingField ==>
        notifications == [Notification(FillAllFieldsMessage, Error)] && sending == old(sending)
      ensures Check(name, email, message) == InvalidEmail ==>
        notifications == [Notification(InvalidEmailMessage, Error)] && sending == old(sending)
      ensures Check(name, email, message) == Accepted ==> notifications == old(notifications) && sending
    {
      var verdict := Check(name, email, message);
      if verdict == MissingField {
        ShowNotification(FillAllFieldsMessage, Error);
      } else if verdict == InvalidEmail {
        ShowNotification(InvalidEmailMessage, Error);
      } else {
        sending := true;
      }
    }
  }

  /** A client run: a blank name wins over a bad email; a nav click leaves one active link. */
  method Scenario()
  {
    var page := new Page(["#home", "#menu", "#contact"], [true, false, false], Some(true));
    TrimEmptyIffBlank("  ");
    assert Check("  ", "not-an-email", "hi") == MissingField;
    page.Submit("  ", "not-an-email", "hi");
    assert page.notifications == [Notification(FillAllFieldsMessage, Error)];
    page.NavClick(2, [Anchor("home", 0), Anchor("contact", 900)], 80);
    assert page.active[..] == [false, false, true];
    assert page.scrollTarget == Some(820) && page.menuChecked == Some(false);
  }
}
