/**
 * The settings panel's list edits: the site keywords and the custom social links, each edited
 * through an input that is appended to its list and then cleared, and removed by position.
 */
module SettingsPanel {
  import Lists
  import TextLists

  /** One user-defined link of the social-links tab. */
  datatype CustomLink = CustomLink(name: string, url: string, icon: string)

  const EmptyLink := CustomLink("", "", "")

  /** The social-links tab: fourteen profile fields and the custom links. */
  datatype SocialLinks = SocialLinks(
    github: string, linkedin: string, leetcode: string, hackerrank: string, medium: string,
    devto: string, stackoverflow: string, kaggle: string, behance: string, dribbble: string,
    email: string, phone: string, location: string, personalWebsite: string,
    customLinks: seq<CustomLink>)

  datatype EmailConfig = EmailConfig(
    enabled: bool, smtpHost: string, smtpPort: string, smtpUser: string, smtpPassword: string,
    senderEmail: string, receiverEmail: string, autoReply: bool, autoReplyMessage: string)

  datatype Theme = Theme(primaryColor: string, secondaryColor: string, darkMode: bool, font: string)

  datatype Features = Features(
    showBlog: bool, showProjects: bool, showTestimonials: bool, showNewsletter: bool,
    showContact: bool, enableComments: bool, enableAnalytics: bool)

  datatype Analytics = Analytics(googleAnalyticsId: string, facebookPixelId: string)

  datatype Seo = Seo(ogImage: string, twitterHandle: string, favicon: string)

  /** The site tab's settings object. */
  datatype SiteSettings = SiteSettings(
    siteName: string, siteTitle: string, siteDescription: string, siteKeywords: seq<string>,
    availableForWork: bool, availabilityMessage: string, emailConfig: EmailConfig, theme: Theme,
    features: Features, analytics: Analytics, seo: Seo, maintenanceMode: bool,
    maintenanceMessage: string)

  const InitialSocialLinks :=
    SocialLinks("", "", "", "", "", "", "", "", "", "", "", "", "", "", [])

  const InitialSiteSettings := SiteSettings(
    "", "", "", [], false, "",
    EmailConfig(false, "", "", "", "", "", "", false, ""),
    Theme("#667eea", "#764ba2", true, "Inter"),
    Features(true, true, true, false, true, false, false),
    Analytics("", ""),
    Seo("", "", ""),
    false, "")

  /** `addCustomLink` takes the input: it has a name and a url. */
  predicate LinkComplete(link: CustomLink) {
    link.name != "" && link.url != ""
  }

  /** The settings panel's component state. */
  class Panel {
    var socialLinks: SocialLinks
    var siteSettings: SiteSettings
    var newKeyword: string
    var newCustomLink: CustomLink

    constructor ()
      ensures socialLinks == InitialSocialLinks && siteSettings == InitialSiteSettings
      ensures newKeyword == "" && newCustomLink == EmptyLink
    {
      socialLinks := InitialSocialLinks;
      siteSettings := InitialSiteSettings;
      newKeyword := "";
      newCustomLink := EmptyLink;
    }

    /**
     * `addKeyword`: the trimmed input is appended when it is non-empty and not yet a keyword,
     * and then the input is cleared; otherwise nothing changes.
     */
    method AddKeyword()
      modifies this
      ensures siteSettings ==
        old(siteSettings).(siteKeywords := TextLists.AddUnique(old(siteSettings.siteKeywords), old(newKeyword)))
      ensures newKeyword == if TextLists.AcceptsUnique(old(siteSettings.siteKeywords), old(newKeyword)) then "" else old(newKeyword)
      ensures socialLinks == old(socialLinks) && newCustomLink == old(newCustomLink)
      ensures Lists.NoDuplicates(old(siteSettings.siteKeywords)) ==> Lists.NoDuplicates(siteSettings.siteKeywords)
    {
      if TextLists.AcceptsUnique(siteSettings.siteKeywords, newKeyword) {
        siteSettings := siteSettings.(siteKeywords := TextLists.AddUnique(siteSettings.siteKeywords, newKeyword));
        newKeyword := "";
      }
    }

    /** `removeKeyword(index)`: exactly that position goes; every other setting stays. */
    method RemoveKeyword(index: int)
      modifies this
      ensures siteSettings == old(siteSettings).(siteKeywords := Lists.RemoveIndex(old(siteSettings.siteKeywords), index))
      ensures socialLinks == old(socialLinks) && newKeyword == old(newKeyword) && newCustomLink == old(newCustomLink)
      ensures Lists.NoDuplicates(old(siteSettings.siteKeywords)) ==> Lists.NoDuplicates(siteSettings.siteKeywords)
    {
      if Lists.NoDuplicates(siteSettings.siteKeywords) {
        Lists.RemoveIndexKeepsNoDuplicates(siteSettings.siteKeywords, index);
      }
      siteSettings := siteSettings.(siteKeywords := Lists.RemoveIndex(siteSettings.siteKeywords, index));
    }

    /**
     * `addCustomLink`: a link with a name and a url is appended as a copy and the input is reset
     * to empty fields; otherwise nothing changes.
     */
    method AddCustomLink()
      modifies this
      ensures LinkComplete(old(newCustomLink)) ==>
        socialLinks == old(socialLinks).(customLinks := old(socialLinks.customLinks) + [old(newCustomLink)])
        && newCustomLink == EmptyLink
      ensures !LinkComplete(old(newCustomLink)) ==>
        socialLinks == old(socialLinks) && newCustomLink == old(newCustomLink)
      ensures siteSettings == old(siteSettings) && newKeyword == old(newKeyword)
    {
      if newCustomLink.name != "" && newCustomLink.url != "" {
        socialLinks := socialLinks.(customLinks := socialLinks.customLinks + [newCustomLink]);
        newCustomLink := EmptyLink;
      }
    }

    /** `removeCustomLink(index)`: exactly that position goes; the profile fields stay. */
    method RemoveCustomLink(index: int)
      modifies this
      ensures socialLinks == old(socialLinks).(customLinks := Lists.RemoveIndex(old(socialLinks.customLinks), index))
      ensures siteSettings == old(siteSettings) && newKeyword == old(newKeyword) && newCustomLink == old(newCustomLink)
    {
      socialLinks := socialLinks.(customLinks := Lists.RemoveIndex(socialLinks.customLinks, index));
    }
  }

  /** Every link the panel stores has a name and a url, as long as it started out so. */
  predicate LinksComplete(links: seq<CustomLink>) {
    forall i :: 0 <= i < |links| ==> LinkComplete(links[i])
  }

  /** Appending a complete link and removing any position both keep every stored link complete. */
  lemma LinkEditsKeepLinksComplete(links: seq<CustomLink>, link: CustomLink, index: int)
    requires LinksComplete(links)
    ensures LinkComplete(link) ==> LinksComplete(links + [link])
    ensures LinksComplete(Lists.RemoveIndex(links, index))
  {
    var r := Lists.RemoveIndex(links, index);
    if 0 <= index < |links| {
      forall i | 0 <= i < |r| ensures LinkComplete(r[i]) {
        if i < index {
          assert r[i] == links[i];
        } else {
          assert r[i] == links[i + 1];
        }
      }
    }
  }
}
