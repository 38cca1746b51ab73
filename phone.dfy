/**
 * Turning a phone number typed in international format ("+44 7700-900000")
 * into the digits-only form the two WhatsApp integrations address.
 */
module Phone {
  import opened Text

  /** A separator that cleaning removes. */
  predicate IsSeparator(x: char) {
    x == '+' || x == ' ' || x == '-'
  }

  /**
   * `phone.replace("+", "").replace(" ", "").replace("-", "")`: no separator is left, every
   * other character keeps its count, and a single character is dropped iff it is a separator.
   * That the kept characters stay in order is `CleanPhoneAppend`.
   */
  function CleanPhone(phone: string): (clean: string)
    ensures '+' !in clean && ' ' !in clean && '-' !in clean
    ensures forall x :: !IsSeparator(x) ==> multiset(clean)[x] == multiset(phone)[x]
    ensures |phone| == 1 ==> clean == (if IsSeparator(phone[0]) then [] else phone)
  {
    var noPlus := RemoveChar(phone, '+');
    var noSpace := RemoveChar(noPlus, ' ');
    var clean := RemoveChar(noSpace, '-');
    assert multiset(clean)['+'] == multiset(noSpace)['+'] == 0;
    assert multiset(clean)[' '] == 0;
    clean
  }

  /** Cleaning a concatenation cleans each part and keeps the parts in order. */
  lemma CleanPhoneAppend(a: string, b: string)
    ensures CleanPhone(a + b) == CleanPhone(a) + CleanPhone(b)
  {
    RemoveCharAppend(a, b, '+');
    var a1, b1 := RemoveChar(a, '+'), RemoveChar(b, '+');
    RemoveCharAppend(a1, b1, ' ');
    var a2, b2 := RemoveChar(a1, ' '), RemoveChar(b1, ' ');
    RemoveCharAppend(a2, b2, '-');
  }

  /** A number that is already clean is left as it is, so cleaning twice is cleaning once. */
  lemma CleanPhoneIdempotent(phone: string)
    ensures CleanPhone(CleanPhone(phone)) == CleanPhone(phone)
  {
    var clean := CleanPhone(phone);
    RemoveAbsentChar(clean, '+');
    RemoveAbsentChar(clean, ' ');
    RemoveAbsentChar(clean, '-');
  }

  const ChatSuffix: string := "@c.us"

  /** `fmt_phone_for_greenapi`: the chat id has no separators and ends in "@c.us". */
  function GreenApiChatId(phone: string): (id: string)
    ensures '+' !in id && ' ' !in id && '-' !in id
    ensures EndsWith(id, ChatSuffix)
  {
    EndsWithAppended(CleanPhone(phone), ChatSuffix);
    CleanPhone(phone) + ChatSuffix
  }

  /**
   * Cutting "@c.us" off a chat id gives back the cleaned number, so two numbers share a
   * chat id exactly when they clean to the same digits.
   */
  lemma GreenApiChatIdShape(phone: string, other: string)
    ensures var id := GreenApiChatId(phone);
      |ChatSuffix| <= |id| && id[..|id| - |ChatSuffix|] == CleanPhone(phone)
    ensures GreenApiChatId(phone) == GreenApiChatId(other) <==> CleanPhone(phone) == CleanPhone(other)
  {
    var id, id' := GreenApiChatId(phone), GreenApiChatId(other);
    assert id[..|id| - |ChatSuffix|] == CleanPhone(phone);
    assert id'[..|id'| - |ChatSuffix|] == CleanPhone(other);
  }

  const WaMeBase: string := "https://wa.me/"
  const TextParam: string := "?text="

  /**
   * The click-to-chat link: base URL, cleaned number, then the message run through
   * `encode`, which stands for `urllib.parse.quote` and is not modelled.
   */
  function WaMeLink(phone: string, message: string, encode: string -> string): (link: string)
    ensures |WaMeBase| <= |link| && link[..|WaMeBase|] == WaMeBase
    ensures EndsWith(link, encode(message))
  {
    var head := WaMeBase + CleanPhone(phone) + TextParam;
    EndsWithAppended(head, encode(message));
    head + encode(message)
  }

  /** The link starts with the base URL, the cleaned number and "?text=", and ends with the encoded message. */
  lemma WaMeLinkShape(phone: string, message: string, encode: string -> string)
    ensures var link := WaMeLink(phone, message, encode);
      var head := WaMeBase + CleanPhone(phone) + TextParam;
      && |head| <= |link|
      && link[..|head|] == head
      && link[|head|..] == encode(message)
      && link[|WaMeBase|..|WaMeBase| + |CleanPhone(phone)|] == CleanPhone(phone)
  {
  }
}
