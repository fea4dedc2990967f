/**
 * Organizations: creating one stores its name together with a slug derived
 * from that name by a fixed string pipeline.
 */
module Organizations {
  import opened Store

  /** The characters the second `replace` removes: `' " ! @ # $ % ^ & * ( )`. */
  predicate Stripped(c: char)
  {
    c == '\'' || c == '"' || c == '!' || c == '@' || c == '#' || c == '$'
    || c == '%' || c == '^' || c == '&' || c == '*' || c == '(' || c == ')'
  }

  /** `.replace(/ /g, '-')`. */
  function ReplaceSpaces(s: string): string
  {
    seq(|s|, i requires 0 <= i < |s| => if s[i] == ' ' then '-' else s[i])
  }

  /** `.replace(/['"!@#$%^&*()]/g, '')`. */
  function StripPunctuation(s: string): string
  {
    if s == [] then []
    else (if Stripped(s[0]) then [] else [s[0]]) + StripPunctuation(s[1..])
  }

  /** `toLowerCase` on one character; only ASCII letters are mapped. */
  function LowerChar(c: char): char
  {
    if 'A' <= c <= 'Z' then (c as int + 32) as char else c
  }

  /** `.toLowerCase()`. */
  function ToLowerCase(s: string): string
  {
    seq(|s|, i requires 0 <= i < |s| => LowerChar(s[i]))
  }

  /** The characters `encodeURIComponent` leaves unescaped: `A-Z a-z 0-9 - _ . ! ~ * ' ( )`. */
  predicate Unreserved(c: char)
  {
    || 'A' <= c <= 'Z' || 'a' <= c <= 'z' || '0' <= c <= '9'
    || c == '-' || c == '_' || c == '.' || c == '!' || c == '~' || c == '*' || c == '\'' || c == '(' || c == ')'
  }

  /** The UTF-8 bytes of one character. */
  function Utf8(c: char): (bytes: seq<nat>)
    ensures 1 <= |bytes| <= 4
    ensures forall i :: 0 <= i < |bytes| ==> bytes[i] < 256
  {
    var cp := c as int;
    if cp < 0x80 then [cp]
    else if cp < 0x800 then [0xC0 + cp / 64, 0x80 + cp % 64]
    else if cp < 0x10000 then [0xE0 + cp / 4096, 0x80 + (cp / 64) % 64, 0x80 + cp % 64]
    else [0xF0 + cp / 262144, 0x80 + (cp / 4096) % 64, 0x80 + (cp / 64) % 64, 0x80 + cp % 64]
  }

  function HexDigit(d: nat): (c: char)
    requires d < 16
    ensures '0' <= c <= '9' || 'A' <= c <= 'F'
  {
    "0123456789ABCDEF"[d]
  }

  /** Each byte as `%XY`, with upper-case hex digits. */
  function PercentEncode(bytes: seq<nat>): string
    requires forall i :: 0 <= i < |bytes| ==> bytes[i] < 256
  {
    if bytes == [] then []
    else ['%', HexDigit(bytes[0] / 16), HexDigit(bytes[0] % 16)] + PercentEncode(bytes[1..])
  }

  function EncodeChar(c: char): string
  {
    if Unreserved(c) then [c] else PercentEncode(Utf8(c))
  }

  /** `encodeURIComponent`. */
  function EncodeURIComponent(s: string): string
  {
    if s == [] then [] else EncodeChar(s[0]) + EncodeURIComponent(s[1..])
  }

  /** `nameToSlug`: spaces to hyphens, strip punctuation, lower-case, percent-encode. */
  function NameToSlug(name: string): string
  {
    EncodeURIComponent(ToLowerCase(StripPunctuation(ReplaceSpaces(name))))
  }

  /** `createOrganization`: inserts a row holding the name and the slug derived from it. */
  method CreateOrganization(db: Db, name: string) returns (organization: Organization)
    requires db.Valid()
    modifies db
    ensures db.Valid()
    ensures organization.name == name && organization.slug == NameToSlug(name)
    ensures organization.id == old(db.nextId)
    ensures db.organizations == old(db.organizations) + [organization]
    ensures db.users == old(db.users) && db.invitations == old(db.invitations)
    ensures db.nextId == old(db.nextId) + 1
  {
    organization := Organization(db.nextId, name, NameToSlug(name));
    db.organizations := db.organizations + [organization];
    db.nextId := db.nextId + 1;
  }

  // ---------------------------------------------------------------------
  // Properties of the slug pipeline

  lemma {:induction false} StripPunctuationConcat(a: string, b: string)
    ensures StripPunctuation(a + b) == StripPunctuation(a) + StripPunctuation(b)
  {
    if a == [] {
      assert a + b == b;
    } else {
      assert (a + b)[1..] == a[1..] + b;
      StripPunctuationConcat(a[1..], b);
    }
  }

  /** Text without any of the stripped characters passes the strip step unchanged. */
  lemma {:induction false} StripPunctuationKeeps(s: string)
    requires forall i :: 0 <= i < |s| ==> !Stripped(s[i])
    ensures StripPunctuation(s) == s
  {
    if s != [] {
      StripPunctuationKeeps(s[1..]);
    }
  }

  lemma {:induction false} EncodeURIComponentConcat(a: string, b: string)
    ensures EncodeURIComponent(a + b) == EncodeURIComponent(a) + EncodeURIComponent(b)
  {
    if a == [] {
      assert a + b == b;
    } else {
      assert (a + b)[1..] == a[1..] + b;
      EncodeURIComponentConcat(a[1..], b);
    }
  }

  /** Text made only of unreserved characters is not percent-encoded at all. */
  lemma {:induction false} EncodeURIComponentKeeps(s: string)
    requires forall i :: 0 <= i < |s| ==> Unreserved(s[i])
    ensures EncodeURIComponent(s) == s
  {
    if s != [] {
      EncodeURIComponentKeeps(s[1..]);
    }
  }

  predicate AsciiAlphanumeric(c: char)
  {
    'A' <= c <= 'Z' || 'a' <= c <= 'z' || '0' <= c <= '9'
  }

  /**
   * A name made only of ASCII letters, digits and spaces becomes its
   * lower-cased self with every space turned into a hyphen; nothing is
   * removed and nothing is percent-encoded.
   */
  lemma SlugOfPlainName(name: string)
    requires forall i :: 0 <= i < |name| ==> AsciiAlphanumeric(name[i]) || name[i] == ' '
    ensures |NameToSlug(name)| == |name|
    ensures forall i :: 0 <= i < |name| ==>
      NameToSlug(name)[i] == (if name[i] == ' ' then '-' else LowerChar(name[i]))
  {
    var replaced := ReplaceSpaces(name);
    StripPunctuationKeeps(replaced);
    var lowered := ToLowerCase(replaced);
    EncodeURIComponentKeeps(lowered);
  }

  /** The slug of a concatenation is the concatenation of the slugs: every step works character by character. */
  lemma NameToSlugConcat(a: string, b: string)
    ensures NameToSlug(a + b) == NameToSlug(a) + NameToSlug(b)
  {
    assert ReplaceSpaces(a + b) == ReplaceSpaces(a) + ReplaceSpaces(b);
    StripPunctuationConcat(ReplaceSpaces(a), ReplaceSpaces(b));
    var sa, sb := StripPunctuation(ReplaceSpaces(a)), StripPunctuation(ReplaceSpaces(b));
    assert ToLowerCase(sa + sb) == ToLowerCase(sa) + ToLowerCase(sb);
    EncodeURIComponentConcat(ToLowerCase(StripPunctuation(ReplaceSpaces(a))), ToLowerCase(StripPunctuation(ReplaceSpaces(b))));
  }

  /** A name made only of stripped characters leaves nothing in the slug. */
  lemma {:induction false} SlugOfPunctuation(name: string)
    requires forall i :: 0 <= i < |name| ==> Stripped(name[i])
    ensures NameToSlug(name) == ""
  {
    if name == [] {
      assert ReplaceSpaces(name) == [];
    } else {
      var head := name[..1];
      assert ReplaceSpaces(head) == head;
      assert StripPunctuation(head) == [];
      assert ToLowerCase([]) == [];
      SlugOfPunctuation(name[1..]);
      SlugSplit(name, 1);
    }
  }

  /** Cutting a name in two cuts its slug in two. */
  lemma SlugSplit(name: string, i: nat)
    requires i <= |name|
    ensures NameToSlug(name) == NameToSlug(name[..i]) + NameToSlug(name[i..])
  {
    assert name == name[..i] + name[i..];
    NameToSlugConcat(name[..i], name[i..]);
  }

  /** Extending a prefix of a name by the next run extends its slug by the run's slug. */
  lemma SlugJoinPrefix(name: string, i: nat, j: nat, a: string, b: string)
    requires i <= j <= |name|
    requires NameToSlug(name[..i]) == a && NameToSlug(name[i..j]) == b
    ensures NameToSlug(name[..j]) == a + b
  {
    assert name[..j] == name[..i] + name[i..j];
    NameToSlugConcat(name[..i], name[i..j]);
  }

  /** A prefix and the rest of a name: the slug of the whole is the two slugs joined. */
  lemma SlugJoin(name: string, i: nat, a: string, b: string)
    requires i <= |name|
    requires NameToSlug(name[..i]) == a && NameToSlug(name[i..]) == b
    ensures NameToSlug(name) == a + b
  {
    SlugSplit(name, i);
  }

  /** A run of letters, digits and spaces, checked against its expected slug one character at a time. */
  lemma SlugOfPlainRun(run: string, expected: string)
    requires forall i :: 0 <= i < |run| ==> AsciiAlphanumeric(run[i]) || run[i] == ' '
    requires |expected| == |run|
    requires forall i :: 0 <= i < |run| ==> expected[i] == (if run[i] == ' ' then '-' else LowerChar(run[i]))
    ensures NameToSlug(run) == expected
  {
    SlugOfPlainName(run);
  }

  /** The characters a slug can hold: lower-case letters, digits, `- _ . ~`, and `%XY` escapes with upper-case hex. */
  predicate SlugChar(c: char)
  {
    'a' <= c <= 'z' || '0' <= c <= '9' || c == '-' || c == '_' || c == '.' || c == '~'
    || c == '%' || 'A' <= c <= 'F'
  }

  lemma {:induction false} PercentEncodeChars(bytes: seq<nat>)
    requires forall i :: 0 <= i < |bytes| ==> bytes[i] < 256
    ensures |PercentEncode(bytes)| == 3 * |bytes|
    ensures forall i :: 0 <= i < |PercentEncode(bytes)| ==> SlugChar(PercentEncode(bytes)[i])
  {
    if bytes != [] {
      PercentEncodeChars(bytes[1..]);
    }
  }

  lemma {:induction false} StripPunctuationRemoves(s: string)
    ensures forall i :: 0 <= i < |StripPunctuation(s)| ==> !Stripped(StripPunctuation(s)[i])
    ensures forall i :: 0 <= i < |StripPunctuation(s)| ==> StripPunctuation(s)[i] in s
  {
    if s != [] {
      StripPunctuationRemoves(s[1..]);
    }
  }

  lemma {:induction false} EncodeURIComponentChars(s: string)
    requires forall i :: 0 <= i < |s| ==> !Stripped(s[i]) && !('A' <= s[i] <= 'Z')
    ensures forall i :: 0 <= i < |EncodeURIComponent(s)| ==> SlugChar(EncodeURIComponent(s)[i])
  {
    if s != [] {
      EncodeURIComponentChars(s[1..]);
      if !Unreserved(s[0]) {
        PercentEncodeChars(Utf8(s[0]));
      }
    }
  }

  /**
   * Whatever the name, its slug holds no space and none of the removed
   * punctuation except the `%` of an escape: it is safe as a URL path segment.
   */
  lemma SlugAlphabet(name: string)
    ensures forall i :: 0 <= i < |NameToSlug(name)| ==> SlugChar(NameToSlug(name)[i])
    ensures ' ' !in NameToSlug(name)
  {
    var stripped := StripPunctuation(ReplaceSpaces(name));
    StripPunctuationRemoves(ReplaceSpaces(name));
    var lowered := ToLowerCase(stripped);
    assert forall i :: 0 <= i < |lowered| ==> !Stripped(lowered[i]) && !('A' <= lowered[i] <= 'Z');
    EncodeURIComponentChars(lowered);
  }

  /** The slug of one character: a space gives `-`, removed punctuation gives nothing, anything else is lower-cased and encoded. */
  lemma SlugOfChar(c: char)
    ensures NameToSlug([c]) == if c == ' ' then "-" else if Stripped(c) then "" else EncodeChar(LowerChar(c))
  {
    var replaced := ReplaceSpaces([c]);
    assert replaced == [if c == ' ' then '-' else c];
    assert StripPunctuation(replaced) == (if Stripped(replaced[0]) then [] else [replaced[0]]) + StripPunctuation([]);
    var stripped := StripPunctuation(replaced);
    var lowered := ToLowerCase(stripped);
    if stripped == [] {
      assert lowered == [];
    } else {
      assert stripped == replaced;
      assert lowered == [LowerChar(replaced[0])];
      assert EncodeURIComponent(lowered) == EncodeChar(lowered[0]) + EncodeURIComponent([]);
    }
  }

  /** The number of times `c` occurs in `s`. */
  function Count(c: char, s: string): nat
  {
    if s == [] then 0 else (if s[0] == c then 1 else 0) + Count(c, s[1..])
  }

  lemma {:induction false} CountConcat(c: char, a: string, b: string)
    ensures Count(c, a + b) == Count(c, a) + Count(c, b)
  {
    if a == [] {
      assert a + b == b;
    } else {
      assert (a + b)[1..] == a[1..] + b;
      CountConcat(c, a[1..], b);
    }
  }

  lemma {:induction false} CountAbsent(c: char, s: string)
    requires forall i :: 0 <= i < |s| ==> s[i] != c
    ensures Count(c, s) == 0
  {
    if s != [] {
      CountAbsent(c, s[1..]);
    }
  }

  lemma {:induction false} PercentEncodeNoHyphen(bytes: seq<nat>)
    requires forall i :: 0 <= i < |bytes| ==> bytes[i] < 256
    ensures Count('-', PercentEncode(bytes)) == 0
  {
    if bytes != [] {
      PercentEncodeNoHyphen(bytes[1..]);
      var head := ['%', HexDigit(bytes[0] / 16), HexDigit(bytes[0] % 16)];
      CountConcat('-', head, PercentEncode(bytes[1..]));
      CountAbsent('-', head);
    }
  }

  /**
   * Every space of the name becomes a hyphen of the slug and every hyphen of
   * the name is kept; no other hyphen appears (percent escapes hold none).
   */
  lemma {:induction false} SlugHyphens(name: string)
    ensures Count('-', NameToSlug(name)) == Count(' ', name) + Count('-', name)
  {
    if name == [] {
      SlugOfPunctuation(name);
    } else {
      SlugSplit(name, 1);
      assert name[..1] == [name[0]];
      SlugOfChar(name[0]);
      var c := name[0];
      if c != ' ' && !Stripped(c) && !Unreserved(LowerChar(c)) {
        PercentEncodeNoHyphen(Utf8(LowerChar(c)));
      }
      CountConcat('-', NameToSlug(name[..1]), NameToSlug(name[1..]));
      SlugHyphens(name[1..]);
    }
  }

  /**
   * A name whose characters `encodeURIComponent` would leave alone (or
   * that are spaces or removed punctuation) gives a slug without any
   * upper-case letter. Other characters are escaped, and an escape such as
   * the `%2F` of `/` holds upper-case hex digits.
   */
  lemma SlugLowerCase(name: string)
    requires forall i :: 0 <= i < |name| ==> Unreserved(name[i]) || name[i] == ' ' || Stripped(name[i])
    ensures forall i :: 0 <= i < |NameToSlug(name)| ==> !('A' <= NameToSlug(name)[i] <= 'Z')
  {
    var stripped := StripPunctuation(ReplaceSpaces(name));
    StripPunctuationRemoves(ReplaceSpaces(name));
    assert forall c :: c in stripped ==> Unreserved(c);
    var lowered := ToLowerCase(stripped);
    assert forall i :: 0 <= i < |lowered| ==> Unreserved(lowered[i]) && !('A' <= lowered[i] <= 'Z');
    EncodeURIComponentKeeps(lowered);
  }
}
