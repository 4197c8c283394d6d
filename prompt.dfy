/**
 * The request `analyzeWithGemini` sends: the CUAD-inspired loan checklist
 * rendered as bullet lines, fixed instructions, and the first 15000 code
 * units of the document text.
 */
module Prompt {
  import opened JsStrings
  import opened PropertyKeys

  /** One checklist entry: a clause category and what to look for. */
  datatype ChecklistEntry = ChecklistEntry(name: JsString, description: JsString)

  /** The six entries of `CUAD_LOAN_CHECKLIST` (each description spelt in four pieces). */
  const EffectiveDate: ChecklistEntry := ChecklistEntry(Bmp("Effective Date"),
    Bmp("When the loan " + "is disbursed " + "and interest " + "begins to accrue."))
  const RepaymentTrigger: ChecklistEntry := ChecklistEntry(Bmp("Repayment Trigger"),
    Bmp("The event that " + "starts the repayment " + "(e.g., '6 months " + "after graduation')."))
  const InterestRate: ChecklistEntry := ChecklistEntry(Bmp("Interest Rate / Profit Rate"),
    Bmp("The cost of the " + "loan (e.g., 1% " + "for PTPTN, or " + "4-6% for banks)."))
  const LatePaymentPenalty: ChecklistEntry := ChecklistEntry(Bmp("Late Payment Penalty"),
    Bmp("The 'Gharamah' or " + "late fee (e.g., " + "1% per annum " + "on the arrears)."))
  const GoverningLaw: ChecklistEntry := ChecklistEntry(Bmp("Governing Law"),
    Bmp("Legal " + "jurisdiction " + "(usually Laws " + "of Malaysia)."))
  const Guarantor: ChecklistEntry := ChecklistEntry(Bmp("Co-signer / Guarantor"),
    Bmp("Who else is " + "legally responsible " + "if the student " + "fails to pay."))

  /** `CUAD_LOAN_CHECKLIST`, in the order its properties are written. */
  const LoanChecklist: seq<ChecklistEntry> :=
    [EffectiveDate, RepaymentTrigger, InterestRate, LatePaymentPenalty, GoverningLaw, Guarantor]

  /** The most code units of document text the prompt carries. */
  const MaxTextUnits: nat := 15000

  function Names(entries: seq<ChecklistEntry>): (r: seq<JsString>)
    ensures |r| == |entries|
    ensures forall i :: 0 <= i < |entries| ==> r[i] == entries[i].name
  {
    seq(|entries|, i requires 0 <= i < |entries| => entries[i].name)
  }

  /** A name that starts with a capital letter is not an array index. */
  lemma CapitalFirst(name: string)
    requires |name| >= 1 && 'A' <= name[0] <= 'Z'
    ensures !IsArrayIndex(Bmp(name))
  {
    assert !IsDigit(Bmp(name)[0]);
  }

  /**
   * `Object.entries` lists the checklist in the order it is written: none
   * of its names is an array index.
   */
  lemma ChecklistEntriesInWrittenOrder()
    ensures OwnKeyOrder(Names(LoanChecklist)) == Names(LoanChecklist)
  {
    CapitalFirst("Effective Date");
    CapitalFirst("Repayment Trigger");
    CapitalFirst("Interest Rate / Profit Rate");
    CapitalFirst("Late Payment Penalty");
    CapitalFirst("Governing Law");
    CapitalFirst("Co-signer / Guarantor");
    var names := Names(LoanChecklist);
    assert names == [EffectiveDate.name, RepaymentTrigger.name, InterestRate.name,
                     LatePaymentPenalty.name, GoverningLaw.name, Guarantor.name];
    assert NoArrayIndex(names);
  }

  /**
   * The template literal `- ${k}: ${v}`: the marker `- `, the name, the
   * separator `: `, and the description closing the line.
   */
  function Bullet(e: ChecklistEntry): (r: JsString)
    ensures |r| == |e.name| + |e.description| + 4
    ensures r[..2] == Bmp("- ")
    ensures r[2..2 + |e.name|] == e.name
    ensures r[2 + |e.name|..4 + |e.name|] == Bmp(": ")
    ensures r[|r| - |e.description|..] == e.description
  {
    var r := Bmp("- ") + e.name + Bmp(": ") + e.description;
    assert r == Bmp("- ") + e.name + (Bmp(": ") + e.description);
    r
  }

  function Bullets(entries: seq<ChecklistEntry>): (r: seq<JsString>)
    ensures |r| == |entries|
    ensures forall i :: 0 <= i < |entries| ==> r[i] == Bullet(entries[i])
  {
    seq(|entries|, i requires 0 <= i < |entries| => Bullet(entries[i]))
  }

  /** The `.map(...).join("\n")` of the checklist. */
  function ChecklistSection(entries: seq<ChecklistEntry>): JsString {
    Join(Bullets(entries), [Newline])
  }

  /** Neither the name nor the description of `e` holds a line feed. */
  predicate SingleLine(e: ChecklistEntry) {
    Newline !in e.name && Newline !in e.description
  }

  /**
   * A checklist of single-line entries renders as one line per entry,
   * each the entry's bullet, in order.
   */
  lemma ChecklistLines(entries: seq<ChecklistEntry>)
    requires |entries| >= 1
    requires forall i :: 0 <= i < |entries| ==> SingleLine(entries[i])
    ensures Split(ChecklistSection(entries), Newline) == Bullets(entries)
  {
    var bullets := Bullets(entries);
    forall i | 0 <= i < |bullets| ensures Newline !in bullets[i] {
      var e := entries[i];
      assert bullets[i] == Bmp("- ") + e.name + Bmp(": ") + e.description;
      assert Newline !in Bmp("- ") && Newline !in Bmp(": ");
    }
    SplitJoin(bullets, Newline);
  }

  /**
   * `text.substring(0, 15000)`: the end index is clamped to the length, so
   * the result is the whole text when it is short enough.
   */
  function Excerpt(text: JsString): (r: JsString)
    ensures |r| == if |text| <= MaxTextUnits then |text| else MaxTextUnits
    ensures r == text[..|r|]
  {
    if |text| <= MaxTextUnits then text else text[..MaxTextUnits]
  }

  /** Only the first 15000 code units of the text matter. */
  lemma ExcerptIgnoresTail(text: JsString, rest: JsString)
    requires |text| >= MaxTextUnits
    ensures Excerpt(text + rest) == Excerpt(text)
  {
    assert (text + rest)[..MaxTextUnits] == text[..MaxTextUnits];
  }

  /** Taking the excerpt twice changes nothing. */
  lemma ExcerptIdempotent(text: JsString)
    ensures Excerpt(Excerpt(text)) == Excerpt(text)
  {
  }

  /** The prompt up to and including the indentation of the checklist. */
  const PromptHead: JsString := Bmp(
    "\n  You are a Financial Literacy Expert for Students. \n"
    + "  Analyze this Loan Agreement using the CUAD-inspired checklist:\n  ")

  /** The prompt from the end of the checklist to `TEXT: `. */
  const PromptMiddle: JsString := Bmp(
    "\n\n  ADDITIONAL CRITICAL DATA:\n"
    + "  - Find the 'Repayment Start' condition (e.g., 6 months after grad).\n"
    + "  - Check for 'Guarantor' requirements.\n"
    + "  - Look for 'First Class Honours' or 'Excellence' waivers (Malaysian specific).\n\n"
    + "  FORMAT: Return a JSON array of objects with \"category\", \"clause\", \"explanation\", "
    + "and \"risk_level\" (Low, Medium, High).\n  \n  TEXT: ")

  /** The line feed that closes the template. */
  const PromptTail: JsString := [Newline]

  /** The checklist as it appears in every prompt. */
  const LoanChecklistSection: JsString := ChecklistSection(LoanChecklist)

  /** An entry written with strings free of line feeds is a single line. */
  lemma SingleLineEntry(name: string, d1: string, d2: string, d3: string, d4: string)
    requires '\n' !in name
    requires '\n' !in d1 && '\n' !in d2 && '\n' !in d3 && '\n' !in d4
    ensures SingleLine(ChecklistEntry(Bmp(name), Bmp(d1 + d2 + d3 + d4)))
  {
    BmpWithoutNewline(name);
    assert '\n' !in d1 + d2 + d3 + d4;
    BmpWithoutNewline(d1 + d2 + d3 + d4);
  }

  lemma EffectiveDateSingleLine()
    ensures SingleLine(EffectiveDate)
  {
    SingleLineEntry("Effective Date", "When the loan ", "is disbursed ", "and interest ", "begins to accrue.");
  }

  lemma RepaymentTriggerSingleLine()
    ensures SingleLine(RepaymentTrigger)
  {
    SingleLineEntry("Repayment Trigger", "The event that ", "starts the repayment ", "(e.g., '6 months ", "after graduation').");
  }

  lemma InterestRateSingleLine()
    ensures SingleLine(InterestRate)
  {
    SingleLineEntry("Interest Rate / Profit Rate", "The cost of the ", "loan (e.g., 1% ", "for PTPTN, or ", "4-6% for banks).");
  }

  lemma LatePaymentPenaltySingleLine()
    ensures SingleLine(LatePaymentPenalty)
  {
    SingleLineEntry("Late Payment Penalty", "The 'Gharamah' or ", "late fee (e.g., ", "1% per annum ", "on the arrears).");
  }

  lemma GoverningLawSingleLine()
    ensures SingleLine(GoverningLaw)
  {
    SingleLineEntry("Governing Law", "Legal ", "jurisdiction ", "(usually Laws ", "of Malaysia).");
  }

  lemma GuarantorSingleLine()
    ensures SingleLine(Guarantor)
  {
    SingleLineEntry("Co-signer / Guarantor", "Who else is ", "legally responsible ", "if the student ", "fails to pay.");
  }

  /**
   * No entry of the loan checklist holds a line feed. Each entry is checked
   * by its own lemma, which keeps every literal in a proof of its own.
   */
  lemma LoanChecklistSingleLine()
    ensures forall i :: 0 <= i < |LoanChecklist| ==> SingleLine(LoanChecklist[i])
  {
    EffectiveDateSingleLine();
    RepaymentTriggerSingleLine();
    InterestRateSingleLine();
    LatePaymentPenaltySingleLine();
    GoverningLawSingleLine();
    GuarantorSingleLine();
  }

  /** The loan checklist renders as six lines, its bullets in written order. */
  lemma LoanChecklistLines()
    ensures Split(LoanChecklistSection, Newline) == Bullets(LoanChecklist)
    ensures |Bullets(LoanChecklist)| == 6
  {
    LoanChecklistSingleLine();
    ChecklistLines(LoanChecklist);
  }

  /** The prompt text before the excerpt, the same for every document. */
  const PromptPrefix: JsString := PromptHead + LoanChecklistSection + PromptMiddle

  /** Where the excerpt starts in every prompt. */
  const ExcerptOffset: nat := |PromptPrefix|

  /** `prefix`, then `middle`, then the closing line feed. */
  function Enclose(prefix: JsString, middle: JsString): (p: JsString)
    ensures |p| == |prefix| + |middle| + 1
    ensures p[..|prefix|] == prefix
    ensures p[|prefix|..|p| - 1] == middle
    ensures p[|p| - 1] == Newline
  {
    var p := prefix + middle + PromptTail;
    assert p == prefix + (middle + PromptTail);
    p
  }

  /** The prompt for the document text `text`. */
  function BuildPrompt(text: JsString): (p: JsString)
    ensures |p| == ExcerptOffset + |Excerpt(text)| + 1
    ensures p[..ExcerptOffset] == PromptPrefix
    ensures p[ExcerptOffset..|p| - 1] == Excerpt(text)
    ensures p[|p| - 1] == Newline
  {
    Enclose(PromptPrefix, Excerpt(text))
  }

  /** The excerpt of the text, read back from a prompt. */
  function ExcerptOf(p: JsString): JsString
    requires ExcerptOffset < |p|
  {
    p[ExcerptOffset..|p| - 1]
  }

  /** Reading back the excerpt from the prompt gives the excerpt. */
  lemma PromptRoundTrip(text: JsString)
    ensures ExcerptOf(BuildPrompt(text)) == Excerpt(text)
  {
  }

  /** Two texts give the same prompt exactly when their excerpts agree. */
  lemma SamePromptIffSameExcerpt(text1: JsString, text2: JsString)
    ensures BuildPrompt(text1) == BuildPrompt(text2) <==> Excerpt(text1) == Excerpt(text2)
  {
    EncloseInjective(PromptPrefix, Excerpt(text1), Excerpt(text2));
  }

  /** Enclosing in the same frame keeps distinct texts distinct. */
  lemma EncloseInjective(prefix: JsString, m1: JsString, m2: JsString)
    ensures Enclose(prefix, m1) == Enclose(prefix, m2) <==> m1 == m2
  {
    var p1, p2 := Enclose(prefix, m1), Enclose(prefix, m2);
    if p1 == p2 {
      assert m1 == p1[|prefix|..|p1| - 1];
    }
  }

  /** However long the document, the prompt stays within a fixed size. */
  lemma PromptBounded(text: JsString)
    ensures |BuildPrompt(text)| <= ExcerptOffset + MaxTextUnits + 1
  {
  }
}
