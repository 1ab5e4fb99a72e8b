/** `decide_action_type`: the action kind of an activity from its method
    cell, its kind cell and its free text. */
module ActionType {
  import opened Strings
  import opened Values

  /** The five action kinds of the import format. */
  datatype ActionKind = Meeting | Mail | Phone | OutsideTask | InsideTask

  /** The label written into the output column. */
  function Label(k: ActionKind): string {
    match k
    case Meeting => "面談"
    case Mail => "メール"
    case Phone => "電話"
    case OutsideTask => "社外タスク"
    case InsideTask => "社内タスク"
  }

  const MailWords: seq<string> := ["送付", "返信", "メール", "送信", "添付", "cc", "エビデンス", "提出"]
  const PhoneWords: seq<string> := ["架電", "折返", "通話", "連絡", "コール", "電話"]
  const OutTaskWords: seq<string> := ["現調", "立会", "設置", "納品", "リモート設定", "現地", "フィールド", "調整"]
  const InTaskWords: seq<string> := ["見積", "資料作成", "社内", "mtg", "整理", "手配", "稟議", "準備"]

  /** `str(v) if v is not None else ""`. */
  function TextOf(c: Cell): (r: string)
    ensures c.Null? ==> r == ""
    ensures c.Str? ==> r == c.s
  {
    if c.Null? then "" else PyStr(c)
  }

  /** The method cell (`how`) or the kind cell says "対面" (face to face). */
  predicate FaceToFace(how: Cell, kind: Cell) {
    Strip(TextOf(how)) == "対面" || Strip(TextOf(kind)) == "対面"
  }

  /** The first guess, from the kind cell alone. */
  function KindGuess(kv: string): (r: ActionKind)
    ensures r != Meeting
    ensures Contains(kv, "電話") ==> r == Phone
    ensures !Contains(kv, "電話") && Contains(kv, "メール") ==> r == Mail
    ensures (!Contains(kv, "電話") && !Contains(kv, "メール") &&
             (Contains(kv, "会議") || Contains(AsciiLower(kv), "mtg"))) ==> r == InsideTask
  {
    if Contains(kv, "電話") then Phone
    else if Contains(kv, "メール") then Mail
    else if Contains(kv, "会議") || Contains(AsciiLower(kv), "mtg") then InsideTask
    else OutsideTask
  }

  /** `decide_action_type`: face to face is a meeting; otherwise the free
      text, lower-cased, decides by the first word list it hits (mail,
      phone, outside task, inside task), and the kind cell's guess stands
      when it hits none. */
  function DecideActionType(how: Cell, kind: Cell, freeText: Cell): (r: ActionKind)
    ensures r == Meeting <==> FaceToFace(how, kind)
    ensures !FaceToFace(how, kind) && ContainsAny(AsciiLower(TextOf(freeText)), MailWords) ==> r == Mail
    ensures (!FaceToFace(how, kind) && !ContainsAny(AsciiLower(TextOf(freeText)), MailWords) &&
      ContainsAny(AsciiLower(TextOf(freeText)), PhoneWords)) ==> r == Phone
  {
    var kv := Strip(TextOf(kind));
    var ft := AsciiLower(TextOf(freeText));
    if FaceToFace(how, kind) then Meeting
    else if ContainsAny(ft, MailWords) then Mail
    else if ContainsAny(ft, PhoneWords) then Phone
    else if ContainsAny(ft, OutTaskWords) then OutsideTask
    else if ContainsAny(ft, InTaskWords) then InsideTask
    else KindGuess(kv)
  }

  /** Outside-task words decide once no mail or phone word is present. */
  lemma OutsideTaskWordsDecide(how: Cell, kind: Cell, freeText: Cell)
    ensures var ft := AsciiLower(TextOf(freeText));
      (!FaceToFace(how, kind) && !ContainsAny(ft, MailWords) && !ContainsAny(ft, PhoneWords) &&
       ContainsAny(ft, OutTaskWords)) ==> DecideActionType(how, kind, freeText) == OutsideTask
  {
  }

  /** Inside-task words come last among the word lists. */
  lemma InsideTaskWordsDecide(how: Cell, kind: Cell, freeText: Cell)
    ensures var ft := AsciiLower(TextOf(freeText));
      (!FaceToFace(how, kind) && !ContainsAny(ft, MailWords) && !ContainsAny(ft, PhoneWords) &&
       !ContainsAny(ft, OutTaskWords) && ContainsAny(ft, InTaskWords)) ==>
        DecideActionType(how, kind, freeText) == InsideTask
  {
  }

  /** Only a text without any listed word leaves the kind cell's guess. */
  lemma KindCellDecides(how: Cell, kind: Cell, freeText: Cell)
    ensures var ft := AsciiLower(TextOf(freeText));
      (!FaceToFace(how, kind) && !ContainsAny(ft, MailWords) && !ContainsAny(ft, PhoneWords) &&
       !ContainsAny(ft, OutTaskWords) && !ContainsAny(ft, InTaskWords)) ==>
        DecideActionType(how, kind, freeText) == KindGuess(Strip(TextOf(kind)))
  {
  }

  /** The kind cell alone: phone, mail, then meeting or "mtg" words decide,
      and a kind cell without any of them leaves an outside task. */
  lemma KindGuessDefault(kv: string)
    ensures KindGuess(kv) == OutsideTask <==>
      !Contains(kv, "電話") && !Contains(kv, "メール") && !Contains(kv, "会議") && !Contains(AsciiLower(kv), "mtg")
  {
  }

  /** "対面" in the method cell wins over any word of the text. */
  lemma FaceToFaceWins(kind: Cell, freeText: Cell)
    ensures DecideActionType(Str("対面"), kind, freeText) == Meeting
  {
    StripUnpadded("対面");
  }

  lemma UpperCaseCc()
    ensures ContainsAny(AsciiLower(TextOf(Str("CC"))), MailWords)
  {
    assert AsciiLower("CC") == "cc";
    assert StartsWith("cc"[0..], "cc");
    assert Contains("cc", MailWords[5]);
  }

  /** Upper-case "CC" in the text marks a mail whatever the kind cell says. */
  lemma UpperCaseMailWord(how: Cell, kind: Cell)
    requires !FaceToFace(how, kind)
    ensures DecideActionType(how, kind, Str("CC")) == Mail
  {
    UpperCaseCc();
  }
}
