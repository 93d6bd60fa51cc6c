/** The icon lookup of the site extractors: the icon of a bookmark is the
    value of the first `ICON_MAPPING` keyword, in table order, that occurs in
    its URL, and `fas fa-link` when none does. */
module Icons {
  import opened Text

  const DEFAULT_ICON: string := "fas fa-link"

  /** The number of entries of `ICON_MAPPING`. */
  const ICON_COUNT: nat := 52

  /** The entries of `ICON_MAPPING` as (keyword, icon) pairs, indexed in the
      table's insertion order, which is the order `Object.entries` visits them in. */
  function IconEntry(i: nat): (string, string)
    requires i < ICON_COUNT
  {
    match i
    case 0 => ("github.com", "fab fa-github")
    case 1 => ("stackoverflow.com", "fab fa-stack-overflow")
    case 2 => ("youtube.com", "fab fa-youtube")
    case 3 => ("twitter.com", "fab fa-twitter")
    case 4 => ("facebook.com", "fab fa-facebook")
    case 5 => ("instagram.com", "fab fa-instagram")
    case 6 => ("linkedin.com", "fab fa-linkedin")
    case 7 => ("reddit.com", "fab fa-reddit")
    case 8 => ("amazon.com", "fab fa-amazon")
    case 9 => ("google.com", "fab fa-google")
    case 10 => ("gmail.com", "fas fa-envelope")
    case 11 => ("drive.google.com", "fab fa-google-drive")
    case 12 => ("docs.google.com", "fas fa-file-alt")
    case 13 => ("medium.com", "fab fa-medium")
    case 14 => ("dev.to", "fab fa-dev")
    case 15 => ("gitlab.com", "fab fa-gitlab")
    case 16 => ("bitbucket.org", "fab fa-bitbucket")
    case 17 => ("wikipedia.org", "fab fa-wikipedia-w")
    case 18 => ("discord.com", "fab fa-discord")
    case 19 => ("slack.com", "fab fa-slack")
    case 20 => ("apple.com", "fab fa-apple")
    case 21 => ("microsoft.com", "fab fa-microsoft")
    case 22 => ("android.com", "fab fa-android")
    case 23 => ("twitch.tv", "fab fa-twitch")
    case 24 => ("spotify.com", "fab fa-spotify")
    case 25 => ("pinterest.com", "fab fa-pinterest")
    case 26 => ("telegram.org", "fab fa-telegram")
    case 27 => ("whatsapp.com", "fab fa-whatsapp")
    case 28 => ("netflix.com", "fas fa-film")
    case 29 => ("trello.com", "fab fa-trello")
    case 30 => ("wordpress.com", "fab fa-wordpress")
    case 31 => ("jira", "fab fa-jira")
    case 32 => ("atlassian.com", "fab fa-atlassian")
    case 33 => ("dropbox.com", "fab fa-dropbox")
    case 34 => ("npm", "fab fa-npm")
    case 35 => ("docker.com", "fab fa-docker")
    case 36 => ("python.org", "fab fa-python")
    case 37 => ("javascript", "fab fa-js")
    case 38 => ("php.net", "fab fa-php")
    case 39 => ("java", "fab fa-java")
    case 40 => ("codepen.io", "fab fa-codepen")
    case 41 => ("behance.net", "fab fa-behance")
    case 42 => ("dribbble.com", "fab fa-dribbble")
    case 43 => ("tumblr.com", "fab fa-tumblr")
    case 44 => ("vimeo.com", "fab fa-vimeo")
    case 45 => ("flickr.com", "fab fa-flickr")
    case 46 => ("github.io", "fab fa-github")
    case 47 => ("airbnb.com", "fab fa-airbnb")
    case 48 => ("bitcoin", "fab fa-bitcoin")
    case 49 => ("paypal.com", "fab fa-paypal")
    case 50 => ("ethereum", "fab fa-ethereum")
    case 51 => ("steam", "fab fa-steam")
  }

  /** Whether the keyword at table index `k` occurs in `url`. */
  predicate KeyOccurs(url: string, k: nat) {
    k < ICON_COUNT && Contains(url, IconEntry(k).0)
  }

  function KeyRecognizer(url: string): nat -> Option<nat> {
    (k: nat) => if KeyOccurs(url, k) then Some(k) else None
  }

  /** The first table index at or after `from` whose keyword occurs in `url`. */
  function FirstKey(url: string, from: nat): (r: Option<nat>)
    ensures r.Some? ==> from <= r.value < ICON_COUNT && KeyOccurs(url, r.value)
  {
    var r := FirstMatch(KeyRecognizer(url), from, ICON_COUNT);
    if r.Some? then assert KeyRecognizer(url)(r.value).Some?; r else r
  }

  /** No keyword before FirstKey's result occurs in the URL; when it finds
      none, no keyword from `from` on occurs. */
  lemma FirstKeyFirst(url: string, from: nat)
    ensures FirstKey(url, from).Some? ==> forall k :: from <= k < FirstKey(url, from).value ==> !KeyOccurs(url, k)
    ensures FirstKey(url, from).None? ==> forall k :: from <= k ==> !KeyOccurs(url, k)
  {
    var f := KeyRecognizer(url);
    FirstMatchFirst(f, from, ICON_COUNT);
    forall k | from <= k && (FirstKey(url, from).None? || k < FirstKey(url, from).value)
      ensures !KeyOccurs(url, k)
    {
      if k < ICON_COUNT {
        assert f(k).None?;
      }
    }
  }

  /** The icon for a bookmark URL. */
  function IconFor(url: string): string {
    match FirstKey(url, 0)
    case None => DEFAULT_ICON
    case Some(i) => IconEntry(i).1
  }

  /** The lookup loop of the site extractors: the first entry, in table
      order, whose keyword the URL contains gives the icon. */
  method LookupIcon(url: string) returns (icon: string)
    ensures icon == IconFor(url)
  {
    for i := 0 to ICON_COUNT
      invariant FirstKey(url, i) == FirstKey(url, 0)
    {
      var (keyword, iconClass) := IconEntry(i);
      if Contains(url, keyword) {
        FirstKeyHit(url, i);
        return iconClass;
      }
      FirstKeySkip(url, i);
    }
    icon := DEFAULT_ICON;
  }

  /** A search that starts at an entry whose keyword occurs stops there. */
  lemma FirstKeyHit(url: string, i: nat)
    requires i < ICON_COUNT && Contains(url, IconEntry(i).0)
    ensures FirstKey(url, i) == Some(i)
  {
    assert KeyRecognizer(url)(i).Some?;
  }

  /** A search that starts at an entry whose keyword does not occur goes on
      with the next entry. */
  lemma FirstKeySkip(url: string, i: nat)
    requires i < ICON_COUNT && !Contains(url, IconEntry(i).0)
    ensures FirstKey(url, i) == FirstKey(url, i + 1)
  {
    assert KeyRecognizer(url)(i).None?;
  }

  /** The keyword at index `i` decides the icon exactly when it occurs in
      the URL and no earlier keyword does. */
  lemma FirstKeyIff(url: string, i: nat)
    ensures FirstKey(url, 0) == Some(i) <==> KeyOccurs(url, i) && forall k :: 0 <= k < i ==> !KeyOccurs(url, k)
  {
    FirstKeyFirst(url, 0);
    if FirstKey(url, 0) != Some(i) && KeyOccurs(url, i) {
      assert FirstKey(url, 0).Some?;
      assert FirstKey(url, 0).value < i;
    }
  }

  /** The default icon is chosen exactly when no keyword occurs in the URL. */
  lemma NoKeywordIff(url: string)
    ensures FirstKey(url, 0).None? <==> forall k :: 0 <= k < ICON_COUNT ==> !Contains(url, IconEntry(k).0)
    ensures FirstKey(url, 0).None? ==> IconFor(url) == DEFAULT_ICON
  {
    FirstKeyFirst(url, 0);
    if FirstKey(url, 0).None? {
      forall k | 0 <= k < ICON_COUNT
        ensures !Contains(url, IconEntry(k).0)
      {
        assert !KeyOccurs(url, k);
      }
    }
  }

  /** `google.com` comes before `drive.google.com` and `docs.google.com` and
      occurs in every URL they occur in, so a Google Drive or Docs URL is
      decided by `google.com` or an earlier keyword. */
  lemma GoogleShadowsDriveAndDocs(url: string)
    requires Contains(url, "drive.google.com") || Contains(url, "docs.google.com")
    ensures FirstKey(url, 0).Some? && FirstKey(url, 0).value <= 9
    ensures (forall k :: 0 <= k < 9 ==> !Contains(url, IconEntry(k).0)) ==> IconFor(url) == "fab fa-google"
  {
    if Contains(url, "drive.google.com") {
      ContainsInfix(url, "drive.google.com", "google.com", 6);
    } else {
      ContainsInfix(url, "docs.google.com", "google.com", 5);
    }
    assert KeyOccurs(url, 9);
    FirstKeyFirst(url, 0);
    if forall k :: 0 <= k < 9 ==> !Contains(url, IconEntry(k).0) {
      FirstKeyIff(url, 9);
    }
  }

  /** No URL gets the Google Drive or the Docs icon: the table entries for
      them are never reached. */
  lemma DriveAndDocsIconsUnreachable(url: string)
    ensures IconFor(url) != "fab fa-google-drive" && IconFor(url) != "fas fa-file-alt"
  {
    FirstKeyFirst(url, 0);
    if FirstKey(url, 0).Some? {
      var i := FirstKey(url, 0).value;
      if i == 11 || i == 12 {
        GoogleShadowsDriveAndDocs(url);
        assert false;
      }
      OnlyDriveAndDocsIcons(i);
    }
  }

  /** The Drive and Docs icons appear only at their own entries. */
  lemma OnlyDriveAndDocsIcons(i: nat)
    requires i < ICON_COUNT && i != 11 && i != 12
    ensures IconEntry(i).1 != "fab fa-google-drive" && IconEntry(i).1 != "fas fa-file-alt"
  {
  }
}
