/** The email templates of lib/email/templates.ts. The fixed page markup (document head, style
    sheet, layout tables) does not depend on the arguments and is carried as a `Page` of fixed
    strings between the slots the arguments fill; the model is about those slots and the
    conditional blocks. */
module Templates {
  import opened Wrappers
  import Text

  datatype TemplateProps = TemplateProps(title: string, preheader: Option<string>, content: string,
                                         buttonText: Option<string>, buttonLink: Option<string>,
                                         footerText: Option<string>)

  /** The fixed markup before the title, between the slots, and after the footer text. */
  datatype Page = Page(beforeTitle: string, afterTitle: string, beforeContent: string,
                       afterContent: string, beforeFallback: string, beforeFooter: string, end: string)

  const DefaultFooter := "Avec ❤️ par l'équipe WeekEat<br>On te simplifie la vie, un repas à la fois ✨"

  /** The preheader meta tag, present iff a non-empty preheader is given. */
  function PreheaderMeta(preheader: Option<string>): (r: string)
    ensures r != "" <==> Text.Truthy(preheader)
  {
    if Text.Truthy(preheader) then "<meta name=\"preheader\" content=\"" + preheader.value + "\">" else ""
  }

  /** The button block, present iff both a button text and a link are given. */
  function ButtonBlock(p: TemplateProps): (r: string)
    ensures r != "" <==> Text.Truthy(p.buttonText) && Text.Truthy(p.buttonLink)
  {
    if Text.Truthy(p.buttonText) && Text.Truthy(p.buttonLink) then
      "\n" + ButtonOpen + p.buttonLink.value + ButtonMiddle + p.buttonText.value + ButtonClose
    else ""
  }

  const ButtonOpen := "              <div class=\"email-button-container\">\n                <a href=\""
  const ButtonMiddle := "\" class=\"email-button\">"
  const ButtonClose := "</a>\n              </div>\n              "

  /** The copy-this-link block, present iff a link is given without a button text. */
  function FallbackBlock(p: TemplateProps): (r: string)
    ensures r != "" <==> Text.Truthy(p.buttonLink) && !Text.Truthy(p.buttonText)
  {
    if Text.Truthy(p.buttonLink) && !Text.Truthy(p.buttonText) then
      "\n" + FallbackOpen + p.buttonLink.value + FallbackMiddle + p.buttonLink.value + FallbackClose
    else ""
  }

  const FallbackOpen :=
    "              <div style=\"margin: 30px 0; padding: 20px; background-color: #fef3c7; border-radius: 12px; text-align: center;\">" +
    "\n                <p style=\"color: #78350f; font-size: 14px; margin: 0 0 10px 0;\">" +
    "\n                  Si le bouton ne fonctionne pas, copie ce lien :\n                </p>" +
    "\n                <a href=\""
  const FallbackMiddle := "\" class=\"email-link\" style=\"color: #ea580c; word-break: break-all; font-size: 12px;\">"
  const FallbackClose := "</a>\n              </div>\n              "

  /** The button and the fallback link never both appear. */
  lemma ButtonOrFallback(p: TemplateProps)
    ensures ButtonBlock(p) == "" || FallbackBlock(p) == ""
  {
  }

  /** The footer text: the given one, or the default one when it is missing or empty. */
  function FooterText(footerText: Option<string>): (r: string)
    ensures Text.Truthy(footerText) ==> r == footerText.value
    ensures !Text.Truthy(footerText) ==> r == DefaultFooter
  {
    if Text.Truthy(footerText) then footerText.value else DefaultFooter
  }

  /** The markup between the title and the content: the fixed head with the preheader tag. */
  function BetweenTitleAndContent(p: TemplateProps, page: Page): string {
    page.afterTitle + PreheaderMeta(p.preheader) + page.beforeContent
  }

  /** The markup after the content: the button or fallback link block and the footer. */
  function AfterContent(p: TemplateProps, page: Page): string {
    page.afterContent + ButtonBlock(p) + page.beforeFallback + FallbackBlock(p) +
    page.beforeFooter + FooterText(p.footerText) + page.end
  }

  /** The page before trimming. */
  function Document(p: TemplateProps, page: Page): string {
    page.beforeTitle + p.title + BetweenTitleAndContent(p, page) + p.content + AfterContent(p, page)
  }

  /** getEmailTemplate: the page, trimmed. The result is no longer than the page, starts and
      ends with a character other than white space, and is empty only for a blank page. */
  function EmailTemplate(p: TemplateProps, page: Page): (r: string)
    ensures |r| <= |Document(p, page)|
    ensures r == [] || (!Text.IsWhiteSpace(r[0]) && !Text.IsWhiteSpace(r[|r| - 1]))
    ensures r == [] <==> Text.IsBlank(Document(p, page))
  {
    Text.TrimEmptyIffBlank(Document(p, page));
    Text.Trim(Document(p, page))
  }

  /** Content whose eighth character is '<' gives a non-empty email. */
  lemma MarkupNotBlank(p: TemplateProps, page: Page)
    requires |p.content| > 7 && p.content[7] == '<'
    ensures EmailTemplate(p, page) != []
  {
    var at := |page.beforeTitle| + |p.title| + |BetweenTitleAndContent(p, page)|;
    InsertedVerbatim(p, page);
    assert Document(p, page)[at + 7] == p.content[7];
    assert !Text.IsBlank(Document(p, page)) by {
      assert !Text.IsWhiteSpace(Document(p, page)[at + 7]);
    }
  }

  /** Title and content are inserted as given, without escaping: the title right after the
      fixed head, the content right after the markup that follows the title. */
  lemma InsertedVerbatim(p: TemplateProps, page: Page)
    ensures var d := Document(p, page);
      var at := |page.beforeTitle| + |p.title| + |BetweenTitleAndContent(p, page)|;
      |page.beforeTitle| + |p.title| <= |d| && d[|page.beforeTitle|..|page.beforeTitle| + |p.title|] == p.title &&
      at + |p.content| <= |d| && d[at..at + |p.content|] == p.content
  {
    Slices(page.beforeTitle, p.title, BetweenTitleAndContent(p, page), p.content, AfterContent(p, page));
  }

  /** The second and the fourth of five joined strings stand at their offsets. */
  lemma Slices(a: string, b: string, c: string, d: string, e: string)
    ensures var s := a + b + c + d + e;
      |a| + |b| <= |s| && s[|a|..|a| + |b|] == b &&
      |a| + |b| + |c| + |d| <= |s| && s[|a| + |b| + |c|..|a| + |b| + |c| + |d|] == d
  {
    var s := a + b + c + d + e;
    Slice(a, b, c + d + e);
    assert s == a + b + (c + d + e);
    Slice(a + b + c, d, e);
  }

  lemma Slice(a: string, b: string, c: string)
    ensures |a| + |b| <= |a + b + c| && (a + b + c)[|a|..|a| + |b|] == b
  {
  }

  /** The opening of both emails' content, up to the heading tag. */
  const ContentHead := "\n      <h2>"

  const SignInContent :=
    ContentHead + "Bienvenue ! 👋</h2>\n      <p>Salut ! On est super content de te voir ici !</p>" +
    "\n      <p>Pour te connecter à <strong>WeekEat</strong> et commencer à planifier tes repas avec nous, clique simplement sur le bouton ci-dessous :</p>\n    "

  /** The sign-in props; the email argument is not used. */
  function SignInProps(url: string, email: string): TemplateProps {
    TemplateProps(SignInTitle, Some(SignInPreheader), SignInContent, Some(SignInButton), Some(url), Some(SignInFooter))
  }

  const SignInTitle := "Bienvenue sur WeekEat ! 🎉"
  const SignInPreheader := "Clique sur ce lien pour te connecter à WeekEat"
  const SignInButton := "✨ Me connecter à WeekEat"
  const SignInFooter := "Si tu n'as pas demandé ce lien, tu peux ignorer cet email en toute sécurité. 💛"

  lemma SignInContentMarkup()
    ensures |SignInContent| > 7 && SignInContent[7] == '<'
  {
    assert ContentHead[7] == '<';
  }

  /** getSignInEmailTemplate: the recipient's address does not change the email, and the email
      is never empty, since its content has text. */
  function SignInEmail(url: string, email: string, page: Page): (r: string)
    ensures r == EmailTemplate(SignInProps(url, ""), page)
    ensures r != []
  {
    var p := SignInProps(url, email);
    SignInContentMarkup();
    MarkupNotBlank(p, page);
    EmailTemplate(p, page)
  }

  /** The sign-in email shows its preheader and never the fallback link; it shows the button
      exactly when the link is not empty. */
  lemma SignInBlocks(url: string, email: string)
    ensures var p := SignInProps(url, email);
      PreheaderMeta(p.preheader) != "" && FallbackBlock(p) == "" && (ButtonBlock(p) != "" <==> url != "")
  {
  }

  function InvitationContent(inviterName: string, householdName: string): string {
    InvitationIntro + inviterName + InvitationInvites + householdName + InvitationRest
  }

  const InvitationIntro := ContentHead + "Tu as une invitation ! 🎁</h2>\n      <p>Salut ! 👋</p>\n      <p><strong>"
  const InvitationInvites := "</strong> t'invite à rejoindre le foyer <strong>\""
  const InvitationRest :=
    "\"</strong> sur WeekEat !</p>\n      <p>Avec WeekEat, tu pourras :</p>" +
    "\n      <ul style=\"margin: 16px 0; padding-left: 24px; color: #4b5563;\">" +
    "\n        <li style=\"margin-bottom: 8px;\">🍽️ Planifier vos repas de la semaine avec l'IA</li>" +
    "\n        <li style=\"margin-bottom: 8px;\">🌿 Gérer vos préférences et bannissements d'ingrédients</li>" +
    "\n        <li style=\"margin-bottom: 8px;\">🛒 Générer automatiquement des listes de courses</li>" +
    "\n        <li style=\"margin-bottom: 8px;\">👥 Partager vos planifications avec les membres du foyer</li>" +
    "\n      </ul>\n      <p>Rejoins-nous et simplifie-toi la vie ! ✨</p>\n    "

  function InvitationProps(inviterName: string, householdName: string, invitationLink: string): TemplateProps {
    TemplateProps(InvitationTitleLead + householdName + InvitationTitleEnd,
                  Some(inviterName + InvitationPreheaderTail),
                  InvitationContent(inviterName, householdName),
                  Some(InvitationButton), Some(invitationLink), Some(InvitationFooter))
  }

  const InvitationTitleLead := "Tu as été invité(e) à rejoindre \""
  const InvitationTitleEnd := "\" 🏠"
  const InvitationPreheaderTail := " t'invite à rejoindre son foyer sur WeekEat"
  const InvitationButton := "🎉 Accepter l'invitation"
  const InvitationFooter := "Si tu ne reconnais pas cette invitation, tu peux l'ignorer en toute sécurité. 💛"

  lemma InvitationContentMarkup(inviterName: string, householdName: string)
    ensures |InvitationContent(inviterName, householdName)| > 7 && InvitationContent(inviterName, householdName)[7] == '<'
  {
    assert ContentHead[7] == '<';
  }

  /** getHouseholdInvitationTemplate: the email is never empty, since its content has text. */
  function InvitationEmail(inviterName: string, householdName: string, invitationLink: string, page: Page): (r: string)
    ensures r != []
  {
    var p := InvitationProps(inviterName, householdName, invitationLink);
    InvitationContentMarkup(inviterName, householdName);
    MarkupNotBlank(p, page);
    EmailTemplate(p, page)
  }

  /** The invitation email always has its preheader, never the fallback link, and the button
      exactly when the link is not empty; the household name is put in the title as given. */
  lemma InvitationBlocks(inviterName: string, householdName: string, invitationLink: string)
    ensures var p := InvitationProps(inviterName, householdName, invitationLink);
      PreheaderMeta(p.preheader) != "" && FallbackBlock(p) == "" &&
      (ButtonBlock(p) != "" <==> invitationLink != "") &&
      |InvitationTitleLead| + |householdName| <= |p.title| &&
      p.title[|InvitationTitleLead|..|InvitationTitleLead| + |householdName|] == householdName
  {
    assert |InvitationPreheaderTail| > 0 && |InvitationButton| > 0;
    Slice(InvitationTitleLead, householdName, InvitationTitleEnd);
  }
}
