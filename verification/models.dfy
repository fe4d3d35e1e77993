/**
 * Pure helpers of the web models: image URLs, the table from NGC, IC and HD designations to
 * Messier numbers, and the computed fields of a user.
 */
module Models {
  import opened Wrappers
  import opened Text

  /**
   * `getImageUrlDirect`: an uploaded image ("uploads/...") is served from "/uploads/", any other
   * image (including one without a url) from the legacy image host, by user, size and id.
   */
  function ImageUrlDirect(url: Option<string>, id: string, userId: string, size: string): (r: string)
    ensures url.Some? && StartsWith(url.value, "uploads/") ==> r == "/uploads/" + url.value[8..]
    ensures !(url.Some? && StartsWith(url.value, "uploads/")) ==>
      r == "https://m.astrophotography.tv/i/" + userId + "/" + size + "/" + id + ".jpg"
  {
    if url.Some? && StartsWith(url.value, "uploads/") then
      // `replace` substitutes the first occurrence, which is the prefix itself.
      "/uploads/" + url.value[|"uploads/"|..]
    else "https://m.astrophotography.tv/i/" + userId + "/" + size + "/" + id + ".jpg"
  }

  /** The size used when none is given. */
  const DefaultSize := "1000"

  /** An image record, with the fields the URL needs. */
  datatype Image = Image(url: Option<string>, id: string, userId: string)

  /** `getImageUrl`: the direct URL of the image's own fields. */
  function ImageUrl(image: Image, size: string): (r: string)
    ensures r == ImageUrlDirect(image.url, image.id, image.userId, size)
  {
    ImageUrlDirect(image.url, image.id, image.userId, size)
  }

  /** An uploaded image's URL keeps its path below "uploads/": the two differ only in the leading slash. */
  lemma UploadedUrl(path: string, id: string, userId: string, size: string)
    ensures ImageUrlDirect(Some("uploads/" + path), id, userId, size) == "/uploads/" + path
  {
    assert ("uploads/" + path)[8..] == path;
  }

  /** A legacy image's URL does not depend on its url field, and is distinct for distinct ids of the same user and size. */
  lemma LegacyUrlInjective(id1: string, id2: string, userId: string, size: string)
    requires ImageUrlDirect(None, id1, userId, size) == ImageUrlDirect(None, id2, userId, size)
    ensures id1 == id2
  {
    var prefix := "https://m.astrophotography.tv/i/" + userId + "/" + size + "/";
    var a := ImageUrlDirect(None, id1, userId, size);
    assert a == prefix + id1 + ".jpg";
    assert a[|prefix|..|a| - 4] == id1;
    var b := ImageUrlDirect(None, id2, userId, size);
    assert b == prefix + id2 + ".jpg";
    assert b[|prefix|..|b| - 4] == id2;
  }

  /** A catalogue designation used as a key of the Messier table. */
  datatype Designation = Ngc(n: nat) | Ic(n: nat) | Hd(n: nat)

  /** The key text: "NGC 1952", "IC 4715", "HD 238107". */
  function KeyText(d: Designation): string
  {
    match d
    case Ngc(n) => "NGC " + NatToString(n)
    case Ic(n) => "IC " + NatToString(n)
    case Hd(n) => "HD " + NatToString(n)
  }

  /** A number written as `String(n)` writes it: digits, no leading zero. */
  function Canonical(s: string): (r: Option<nat>)
    ensures r.Some? ==> NatToString(r.value) == s
  {
    if |s| > 0 && AllDigits(s) && NatToString(DecimalValue(s)) == s then Some(DecimalValue(s)) else None
  }

  /** The designation a key text names, if any. */
  function ParseKey(key: string): Option<Designation>
  {
    if StartsWith(key, "NGC ") then (match Canonical(key[4..]) case Some(n) => Some(Ngc(n)) case None => None)
    else if StartsWith(key, "IC ") then (match Canonical(key[3..]) case Some(n) => Some(Ic(n)) case None => None)
    else if StartsWith(key, "HD ") then (match Canonical(key[3..]) case Some(n) => Some(Hd(n)) case None => None)
    else None
  }

  /** Key texts and designations are in one-to-one correspondence. */
  lemma ParseKeyText(d: Designation)
    ensures ParseKey(KeyText(d)) == Some(d)
  {
    DecimalOfNatToString(d.n);
    match d
    case Ngc(n) => assert KeyText(d)[4..] == NatToString(n);
    case Ic(n) => assert KeyText(d)[3..] == NatToString(n); assert KeyText(d)[0] == 'I';
    case Hd(n) => assert KeyText(d)[3..] == NatToString(n); assert KeyText(d)[0] == 'H';
  }

  lemma KeyTextParse(key: string)
    requires ParseKey(key).Some?
    ensures KeyText(ParseKey(key).value) == key
  {
    if StartsWith(key, "NGC ") {
      PrefixRejoin(key, "NGC ");
      assert ParseKey(key) == Some(Ngc(Canonical(key[4..]).value));
    } else if StartsWith(key, "IC ") {
      PrefixRejoin(key, "IC ");
      assert ParseKey(key) == Some(Ic(Canonical(key[3..]).value));
    } else {
      PrefixRejoin(key, "HD ");
      assert ParseKey(key) == Some(Hd(Canonical(key[3..]).value));
    }
  }

  lemma PrefixRejoin(key: string, p: string)
    requires StartsWith(key, p)
    ensures key == p + key[|p|..]
  {
  }

  /**
   * `NGC_TO_MESSIER`, read on designations: the Messier number of each of the 110 keys. The NGC
   * entries are looked up in four tables by range of the NGC number, which keeps each lookup short.
   */
  function MessierOf(d: Designation): Option<nat>
  {
    match d
      case Ngc(n) => (
        if n < 2000 then NgcLow(n) else if n < 4500 then NgcMid(n) else if n < 6300 then NgcHigh(n) else NgcTop(n))
      case Ic(n) => (
        match n
          case 4715 => Some(24)
          case 4725 => Some(25)
          case _ => None)
      case Hd(n) => (
        match n
          case 238107 => Some(40)
          case _ => None)
  }
  /** The NGC entries of the table, by range of the NGC number. */
  function NgcLow(n: nat): Option<nat>
  {
    match n
      case 1952 => Some(1)
      case 224 => Some(31)
      case 221 => Some(32)
      case 598 => Some(33)
      case 1039 => Some(34)
      case 1960 => Some(36)
      case 1912 => Some(38)
      case 1976 => Some(42)
      case 1982 => Some(43)
      case 1432 => Some(45)
      case 628 => Some(74)
      case 650 => Some(76)
      case 1068 => Some(77)
      case 1904 => Some(79)
      case 581 => Some(103)
      case 205 => Some(110)
      case _ => None
  }

  function NgcMid(n: nat): Option<nat>
  {
    match n
      case 2168 => Some(35)
      case 2099 => Some(37)
      case 2287 => Some(41)
      case 2632 => Some(44)
      case 2437 => Some(46)
      case 2422 => Some(47)
      case 2548 => Some(48)
      case 4472 => Some(49)
      case 2323 => Some(50)
      case 4303 => Some(61)
      case 3623 => Some(65)
      case 3627 => Some(66)
      case 2682 => Some(67)
      case 2068 => Some(78)
      case 3031 => Some(81)
      case 3034 => Some(82)
      case 4374 => Some(84)
      case 4382 => Some(85)
      case 4406 => Some(86)
      case 4486 => Some(87)
      case 2447 => Some(93)
      case 3351 => Some(95)
      case 3368 => Some(96)
      case 3587 => Some(97)
      case 4192 => Some(98)
      case 4254 => Some(99)
      case 4321 => Some(100)
      case 3379 => Some(105)
      case 4258 => Some(106)
      case 3556 => Some(108)
      case 3992 => Some(109)
      case _ => None
  }

  function NgcHigh(n: nat): Option<nat>
  {
    match n
      case 5272 => Some(3)
      case 6121 => Some(4)
      case 5904 => Some(5)
      case 6254 => Some(10)
      case 6218 => Some(12)
      case 6205 => Some(13)
      case 6273 => Some(19)
      case 5194 => Some(51)
      case 5024 => Some(53)
      case 4579 => Some(58)
      case 4621 => Some(59)
      case 4649 => Some(60)
      case 6266 => Some(62)
      case 5055 => Some(63)
      case 4826 => Some(64)
      case 4590 => Some(68)
      case 6093 => Some(80)
      case 5236 => Some(83)
      case 4501 => Some(88)
      case 4552 => Some(89)
      case 4569 => Some(90)
      case 4548 => Some(91)
      case 4736 => Some(94)
      case 5457 => Some(101)
      case 5866 => Some(102)
      case 4594 => Some(104)
      case 6171 => Some(107)
      case _ => None
  }

  function NgcTop(n: nat): Option<nat>
  {
    match n
      case 7089 => Some(2)
      case 6405 => Some(6)
      case 6475 => Some(7)
      case 6523 => Some(8)
      case 6333 => Some(9)
      case 6705 => Some(11)
      case 6402 => Some(14)
      case 7078 => Some(15)
      case 6611 => Some(16)
      case 6618 => Some(17)
      case 6613 => Some(18)
      case 6514 => Some(20)
      case 6531 => Some(21)
      case 6656 => Some(22)
      case 6494 => Some(23)
      case 6694 => Some(26)
      case 6853 => Some(27)
      case 6626 => Some(28)
      case 6913 => Some(29)
      case 7099 => Some(30)
      case 7092 => Some(39)
      case 7654 => Some(52)
      case 6715 => Some(54)
      case 6809 => Some(55)
      case 6779 => Some(56)
      case 6720 => Some(57)
      case 6637 => Some(69)
      case 6681 => Some(70)
      case 6838 => Some(71)
      case 6981 => Some(72)
      case 6994 => Some(73)
      case 6864 => Some(75)
      case 6341 => Some(92)
      case _ => None
  }

  /** The keys of the table in the order they are written, that is, by Messier number. */
  const Chunk0: seq<Designation> := [Ngc(1952), Ngc(7089), Ngc(5272), Ngc(6121), Ngc(5904), Ngc(6405), Ngc(6475), Ngc(6523), Ngc(6333), Ngc(6254)]
  const Chunk1: seq<Designation> := [Ngc(6705), Ngc(6218), Ngc(6205), Ngc(6402), Ngc(7078), Ngc(6611), Ngc(6618), Ngc(6613), Ngc(6273), Ngc(6514)]
  const Chunk2: seq<Designation> := [Ngc(6531), Ngc(6656), Ngc(6494), Ic(4715), Ic(4725), Ngc(6694), Ngc(6853), Ngc(6626), Ngc(6913), Ngc(7099)]
  const Chunk3: seq<Designation> := [Ngc(224), Ngc(221), Ngc(598), Ngc(1039), Ngc(2168), Ngc(1960), Ngc(2099), Ngc(1912), Ngc(7092), Hd(238107)]
  const Chunk4: seq<Designation> := [Ngc(2287), Ngc(1976), Ngc(1982), Ngc(2632), Ngc(1432), Ngc(2437), Ngc(2422), Ngc(2548), Ngc(4472), Ngc(2323)]
  const Chunk5: seq<Designation> := [Ngc(5194), Ngc(7654), Ngc(5024), Ngc(6715), Ngc(6809), Ngc(6779), Ngc(6720), Ngc(4579), Ngc(4621), Ngc(4649)]
  const Chunk6: seq<Designation> := [Ngc(4303), Ngc(6266), Ngc(5055), Ngc(4826), Ngc(3623), Ngc(3627), Ngc(2682), Ngc(4590), Ngc(6637), Ngc(6681)]
  const Chunk7: seq<Designation> := [Ngc(6838), Ngc(6981), Ngc(6994), Ngc(628), Ngc(6864), Ngc(650), Ngc(1068), Ngc(2068), Ngc(1904), Ngc(6093)]
  const Chunk8: seq<Designation> := [Ngc(3031), Ngc(3034), Ngc(5236), Ngc(4374), Ngc(4382), Ngc(4406), Ngc(4486), Ngc(4501), Ngc(4552), Ngc(4569)]
  const Chunk9: seq<Designation> := [Ngc(4548), Ngc(6341), Ngc(2447), Ngc(4736), Ngc(3351), Ngc(3368), Ngc(3587), Ngc(4192), Ngc(4254), Ngc(4321)]
  const Chunk10: seq<Designation> := [Ngc(5457), Ngc(5866), Ngc(581), Ngc(4594), Ngc(3379), Ngc(4258), Ngc(6171), Ngc(3556), Ngc(3992), Ngc(205)]
  const Keys: seq<Designation> := FirstKeys + LastKeys
  /** The keys of Messier numbers 1 to 60, and of 61 to 110. */
  const FirstKeys: seq<Designation> := Chunk0 + Chunk1 + Chunk2 + Chunk3 + Chunk4 + Chunk5
  const LastKeys: seq<Designation> := Chunk6 + Chunk7 + Chunk8 + Chunk9 + Chunk10

  /** `NGC_TO_MESSIER[key]`: "M " and the Messier number, for a key of the table. */
  function NgcToMessier(key: string): Option<string>
  {
    match ParseKey(key)
    case None => None
    case Some(d) => (match MessierOf(d) case None => None case Some(m) => Some("M " + NatToString(m)))
  }

  /** Every key of the table is the key written at its Messier number's place, which lies in 1..110. */
  lemma Inverse(d: Designation)
    requires MessierOf(d).Some?
    ensures 1 <= MessierOf(d).value <= |Keys| == 110 && Keys[MessierOf(d).value - 1] == d
  {
    if !d.Ngc? { InverseOther(d); }
    else if d.n < 2000 { InverseLow(d); }
    else if d.n < 4500 { InverseMid(d); }
    else if d.n < 6300 { InverseHigh(d); }
    else { InverseTop(d); }
  }

  /** The IC and HD keys, and each range of NGC keys, are at their Messier number's place. */
  lemma InverseOther(d: Designation)
    requires !d.Ngc? && MessierOf(d).Some?
    ensures 1 <= MessierOf(d).value <= |Keys| == 110 && Keys[MessierOf(d).value - 1] == d
  {
  }

  lemma InverseLow(d: Designation)
    requires d.Ngc? && d.n < 2000 && MessierOf(d).Some?
    ensures 1 <= MessierOf(d).value <= |Keys| == 110 && Keys[MessierOf(d).value - 1] == d
  {
  }

  lemma InverseMid(d: Designation)
    requires d.Ngc? && 2000 <= d.n < 4500 && MessierOf(d).Some?
    ensures 1 <= MessierOf(d).value <= |Keys| == 110 && Keys[MessierOf(d).value - 1] == d
  {
  }

  lemma InverseHigh(d: Designation)
    requires d.Ngc? && 4500 <= d.n < 6300 && MessierOf(d).Some?
    ensures 1 <= MessierOf(d).value <= |Keys| == 110 && Keys[MessierOf(d).value - 1] == d
  {
  }

  lemma InverseTop(d: Designation)
    requires d.Ngc? && 6300 <= d.n && MessierOf(d).Some?
    ensures 1 <= MessierOf(d).value <= |Keys| == 110 && Keys[MessierOf(d).value - 1] == d
  {
  }

  lemma Onto0()
    ensures forall j :: 0 <= j < 10 ==> MessierOf(Chunk0[j]) == Some(0 + j + 1)
  {
  }

  lemma Onto1()
    ensures forall j :: 0 <= j < 10 ==> MessierOf(Chunk1[j]) == Some(10 + j + 1)
  {
  }

  lemma Onto2()
    ensures forall j :: 0 <= j < 10 ==> MessierOf(Chunk2[j]) == Some(20 + j + 1)
  {
  }

  lemma Onto3()
    ensures forall j :: 0 <= j < 10 ==> MessierOf(Chunk3[j]) == Some(30 + j + 1)
  {
  }

  lemma Onto4()
    ensures forall j :: 0 <= j < 10 ==> MessierOf(Chunk4[j]) == Some(40 + j + 1)
  {
  }

  lemma Onto5()
    ensures forall j :: 0 <= j < 10 ==> MessierOf(Chunk5[j]) == Some(50 + j + 1)
  {
  }

  lemma Onto6()
    ensures forall j :: 0 <= j < 10 ==> MessierOf(Chunk6[j]) == Some(60 + j + 1)
  {
  }

  lemma Onto7()
    ensures forall j :: 0 <= j < 10 ==> MessierOf(Chunk7[j]) == Some(70 + j + 1)
  {
  }

  lemma Onto8()
    ensures forall j :: 0 <= j < 10 ==> MessierOf(Chunk8[j]) == Some(80 + j + 1)
  {
  }

  lemma Onto9()
    ensures forall j :: 0 <= j < 10 ==> MessierOf(Chunk9[j]) == Some(90 + j + 1)
  {
  }

  lemma Onto10()
    ensures forall j :: 0 <= j < 10 ==> MessierOf(Chunk10[j]) == Some(100 + j + 1)
  {
  }

  /** The key written at each place 1..110 maps to that Messier number. */
  lemma Onto(m: nat)
    requires 1 <= m <= |Keys|
    ensures MessierOf(Keys[m - 1]) == Some(m)
  {
    OntoFirst();
    OntoLast();
  }

  /** The keys of each half of the table map to their places' numbers. */
  lemma OntoFirst()
    ensures |FirstKeys| == 60 && forall j :: 0 <= j < 60 ==> MessierOf(FirstKeys[j]) == Some(j + 1)
  {
    Onto0(); Onto1(); Onto2(); Onto3(); Onto4(); Onto5();
  }

  lemma OntoLast()
    ensures |LastKeys| == 50 && forall j :: 0 <= j < 50 ==> MessierOf(LastKeys[j]) == Some(60 + j + 1)
  {
    Onto6(); Onto7(); Onto8(); Onto9(); Onto10();
  }

  /** Every value of the table is one of "M 1" to "M 110". */
  lemma MessierRange(key: string)
    requires NgcToMessier(key).Some?
    ensures exists m :: 1 <= m <= 110 && NgcToMessier(key) == Some("M " + NatToString(m))
  {
    var m := MessierOf(ParseKey(key).value).value;
    Inverse(ParseKey(key).value);
    assert NgcToMessier(key) == Some("M " + NatToString(m));
  }

  /** Each of "M 1" to "M 110" is the value of a key of the table. */
  lemma MessierOnto(m: nat)
    requires 1 <= m <= 110
    ensures NgcToMessier(KeyText(Keys[m - 1])) == Some("M " + NatToString(m))
  {
    Onto(m);
    ParseKeyText(Keys[m - 1]);
  }

  /** No value is given to two keys. */
  lemma MessierInjective(k1: string, k2: string)
    requires NgcToMessier(k1).Some? && NgcToMessier(k1) == NgcToMessier(k2)
    ensures k1 == k2
  {
    SameValueSameNumber(k1, k2);
    SameNumberSameKey(k1, k2);
  }

  lemma SameValueSameNumber(k1: string, k2: string)
    requires NgcToMessier(k1).Some? && NgcToMessier(k1) == NgcToMessier(k2)
    ensures ParseKey(k1).Some? && ParseKey(k2).Some?
    ensures MessierOf(ParseKey(k1).value).Some? && MessierOf(ParseKey(k1).value) == MessierOf(ParseKey(k2).value)
  {
    var m1, m2 := MessierOf(ParseKey(k1).value).value, MessierOf(ParseKey(k2).value).value;
    var v1, v2 := "M " + NatToString(m1), "M " + NatToString(m2);
    assert v1[2..] == NatToString(m1) && v2[2..] == NatToString(m2);
    NatToStringInjective(m1, m2);
  }

  lemma SameNumberSameKey(k1: string, k2: string)
    requires ParseKey(k1).Some? && ParseKey(k2).Some?
    requires MessierOf(ParseKey(k1).value).Some? && MessierOf(ParseKey(k1).value) == MessierOf(ParseKey(k2).value)
    ensures k1 == k2
  {
    Inverse(ParseKey(k1).value);
    Inverse(ParseKey(k2).value);
    KeyTextParse(k1);
    KeyTextParse(k2);
  }

  /** A user with the computed fields' inputs. */
  datatype User = User(firstName: string, lastName: string, email: Option<string>)

  /** The user's display name: first and last name with one space between. */
  function Name(u: User): (r: string)
    ensures |r| == |u.firstName| + 1 + |u.lastName|
    ensures r[..|u.firstName|] == u.firstName && r[|u.firstName|] == ' ' && r[|u.firstName| + 1..] == u.lastName
  {
    u.firstName + " " + u.lastName
  }

  /** `s[0]` in a template literal: the first character, or "undefined" for an empty string. */
  function FirstShown(s: string): string
  {
    if |s| > 0 then [s[0]] else "undefined"
  }

  /** The user's initials: the first characters of first and last name with a space between. */
  function Initials(u: User): (r: string)
    ensures |u.firstName| > 0 && |u.lastName| > 0 ==> r == [u.firstName[0], ' ', u.lastName[0]]
  {
    FirstShown(u.firstName) + " " + FirstShown(u.lastName)
  }

  /**
   * The user's avatar: none (the empty text) without an email, otherwise the Gravatar of the
   * SHA-256 hex digest of the lower-cased email; the digest is a parameter.
   */
  function AvatarUrl(u: User, sha256Hex: string -> string): (r: string)
    ensures r == "" <==> NonEmpty(u.email).None?
  {
    if NonEmpty(u.email).None? then ""
    else "https://www.gravatar.com/avatar/" + sha256Hex(ToLower(u.email.value)) + "?d=identicon&s=100"
  }
}
