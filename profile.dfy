/**
  The profile sidebar: a profile picture that a button switches between two
  images, one indicator dot per image, and contact links, of which the
  phone link is built from the phone number with its whitespace removed.
 */
module Profile {
  import opened Seqs
  import opened Text
  import opened Cycle

  /** The two profile pictures the switch button alternates between. */
  const ProfileImages: seq<string> := ["/yoon-profile.png", "/yoon-profile-2.png"]

  /** The image shown when the index names no picture. */
  const Placeholder: string := "/placeholder.svg"

  /** The sidebar's hook state. */
  class ProfileSidebar {
    var currentImageIndex: nat

    /** The first picture is shown. */
    constructor()
      ensures currentImageIndex == 0
      ensures CurrentImage() == ProfileImages[0]
    {
      currentImageIndex := 0;
    }

    /** `toggleImage`: the next picture, modulo the two pictures, so 0 and 1 alternate. */
    method ToggleImage()
      modifies this
      ensures currentImageIndex == Next(old(currentImageIndex), |ProfileImages|)
      ensures currentImageIndex < |ProfileImages|
      ensures old(currentImageIndex) < |ProfileImages| ==> currentImageIndex == 1 - old(currentImageIndex)
      ensures CurrentImage() in ProfileImages && CurrentImage() != Placeholder
    {
      currentImageIndex := Next(currentImageIndex, |ProfileImages|);
    }

    /**
      `profileImages[currentImageIndex] || "/placeholder.svg"`: the placeholder
      stands in for a missing entry and for an empty (falsy) one.
     */
    function CurrentImage(): (src: string)
      reads this
      ensures src != ""
      ensures src == Placeholder || src in ProfileImages
      ensures currentImageIndex < |ProfileImages| ==> src in ProfileImages && src != Placeholder
    {
      if currentImageIndex < |ProfileImages| && ProfileImages[currentImageIndex] != "" then
        ProfileImages[currentImageIndex]
      else
        Placeholder
    }

    /** Which indicator dot is highlighted. */
    function ImageDots(): (d: seq<bool>)
      reads this
      ensures |d| == |ProfileImages|
    {
      Dots(currentImageIndex, |ProfileImages|)
    }
  }

  /** Two clicks on the switch show the picture shown before. */
  method ToggleImageTwice(sidebar: ProfileSidebar)
    requires sidebar.currentImageIndex < |ProfileImages|
    modifies sidebar
    ensures sidebar.currentImageIndex == old(sidebar.currentImageIndex)
    ensures sidebar.CurrentImage() == old(sidebar.CurrentImage())
  {
    sidebar.ToggleImage();
    sidebar.ToggleImage();
  }

  /**
    From every index the constructor and the switch can produce, the sidebar
    shows that index's real picture and never the placeholder, and a click on
    the switch shows the other picture.
   */
  lemma ShownImageIsReal(sidebar: ProfileSidebar)
    requires sidebar.currentImageIndex < |ProfileImages|
    ensures sidebar.CurrentImage() == ProfileImages[sidebar.currentImageIndex]
    ensures sidebar.CurrentImage() != Placeholder
    ensures ProfileImages[1 - sidebar.currentImageIndex] != sidebar.CurrentImage()
  {
  }

  /** From any reachable index exactly one of the two dots is highlighted. */
  lemma ExactlyOneImageDot(i: nat)
    requires i < |ProfileImages|
    ensures multiset(Dots(i, |ProfileImages|))[true] == 1
  {
    ExactlyOneDot(i, |ProfileImages|);
  }

  /**
    `phone.replace(/\s/g, "")`: the phone number without any whitespace
    character, every other character kept in its order and multiplicity.
   */
  function StripWhitespace(s: string): (r: string)
    ensures forall c | c in r :: !IsWhitespace(c)
    ensures IsSubsequence(r, s)
    ensures forall c | c in s && !IsWhitespace(c) :: multiset(r)[c] == multiset(s)[c]
    ensures forall c | c in s && IsWhitespace(c) :: c !in r
  {
    Filter(s, c => !IsWhitespace(c))
  }

  /** Stripping a stripped number changes nothing. */
  lemma StripWhitespaceIdempotent(s: string)
    ensures StripWhitespace(StripWhitespace(s)) == StripWhitespace(s)
  {
    FilterIdempotent(s, c => !IsWhitespace(c));
  }

  /** A number without whitespace is left as it is. */
  lemma StripWhitespaceKeepsClean(s: string)
    requires forall c | c in s :: !IsWhitespace(c)
    ensures StripWhitespace(s) == s
  {
    FilterKeepsAll(s, c => !IsWhitespace(c));
  }

  /** The phone link target `` `tel:${...}` ``: the scheme, then the stripped number, with no whitespace anywhere. */
  function TelHref(phone: string): (href: string)
    ensures |href| >= 4 && href[..4] == "tel:" && href[4..] == StripWhitespace(phone)
    ensures forall c | c in href :: !IsWhitespace(c)
  {
    var digits := StripWhitespace(phone);
    assert forall c | c in "tel:" + digits :: c in "tel:" || c in digits;
    "tel:" + digits
  }
}
