/**
 * The slugs of organization.test.ts, and the slash example that shows an
 * ASCII name can have an upper-case hex digit in its slug.
 */
module SlugExamples {
  import opened Organizations

  // The three cases of the tests' table. The verifier does not evaluate
  // the pipeline on a long literal in one go, so each name is cut into runs
  // of plain characters and runs of punctuation, each run's slug is shown
  // on its own, and SlugJoinPrefix and SlugJoin put the slugs together.

  lemma SlugOfMyOrg(name: string)
    requires name == "My Org"
    ensures NameToSlug(name) == "my-org"
  {
    SlugOfPlainName(name);
  }

  /** The apostrophe is removed. */
  lemma SlugOfFamilyName(name: string)
    requires name == "Michael Helvey's Family"
    ensures NameToSlug(name) == "michael-helveys-family"
  {
    FamilyNameFirstRun(name);
    FamilyNameApostrophe(name);
    FamilyNameLastRun(name);
    SlugJoinPrefix(name, 14, 15, "michael-helvey", "");
    SlugJoin(name, 15, "michael-helvey" + "", "s-family");
    FamilyNameText();
  }

  lemma FamilyNameFirstRun(name: string)
    requires name == "Michael Helvey's Family"
    ensures NameToSlug(name[..14]) == "michael-helvey"
  {
    SlugOfPlainRun(name[..14], "michael-helvey");
  }

  lemma FamilyNameApostrophe(name: string)
    requires name == "Michael Helvey's Family"
    ensures NameToSlug(name[14..15]) == ""
  {
    assert name[14] == '\'';
    SlugOfPunctuation(name[14..15]);
  }

  lemma FamilyNameLastRun(name: string)
    requires name == "Michael Helvey's Family"
    ensures NameToSlug(name[15..]) == "s-family"
  {
    SlugOfPlainRun(name[15..], "s-family");
  }

  lemma FamilyNameText()
    ensures "michael-helvey" + "" + "s-family" == "michael-helveys-family"
  {
  }

  /** Punctuation is removed, a literal `%20` loses its `%`, and the spaces around `^` become two hyphens. */
  lemma SlugOfPunctuatedName(name: string)
    requires name == "my!#very%20stupid ^ thing"
    ensures NameToSlug(name) == "myvery20stupid--thing"
  {
    PunctuatedNameMy(name);
    PunctuatedNameBangHash(name);
    PunctuatedNameVery(name);
    PunctuatedNamePercent(name);
    PunctuatedNameStupid(name);
    PunctuatedNameCaret(name);
    PunctuatedNameThing(name);
    SlugJoinPrefix(name, 2, 4, "my", "");
    SlugJoinPrefix(name, 4, 8, "my" + "", "very");
    SlugJoinPrefix(name, 8, 9, "my" + "" + "very", "");
    SlugJoinPrefix(name, 9, 18, "my" + "" + "very" + "", "20stupid-");
    SlugJoinPrefix(name, 18, 19, "my" + "" + "very" + "" + "20stupid-", "");
    SlugJoin(name, 19, "my" + "" + "very" + "" + "20stupid-" + "", "-thing");
    PunctuatedNameText();
  }

  lemma PunctuatedNameMy(name: string)
    requires name == "my!#very%20stupid ^ thing"
    ensures NameToSlug(name[..2]) == "my"
  {
    SlugOfPlainRun(name[..2], "my");
  }

  lemma PunctuatedNameBangHash(name: string)
    requires name == "my!#very%20stupid ^ thing"
    ensures NameToSlug(name[2..4]) == ""
  {
    assert name[2] == '!' && name[3] == '#';
    SlugOfPunctuation(name[2..4]);
  }

  lemma PunctuatedNameVery(name: string)
    requires name == "my!#very%20stupid ^ thing"
    ensures NameToSlug(name[4..8]) == "very"
  {
    SlugOfPlainRun(name[4..8], "very");
  }

  lemma PunctuatedNamePercent(name: string)
    requires name == "my!#very%20stupid ^ thing"
    ensures NameToSlug(name[8..9]) == ""
  {
    assert name[8] == '%';
    SlugOfPunctuation(name[8..9]);
  }

  lemma PunctuatedNameStupid(name: string)
    requires name == "my!#very%20stupid ^ thing"
    ensures NameToSlug(name[9..18]) == "20stupid-"
  {
    SlugOfPlainRun(name[9..18], "20stupid-");
  }

  lemma PunctuatedNameCaret(name: string)
    requires name == "my!#very%20stupid ^ thing"
    ensures NameToSlug(name[18..19]) == ""
  {
    assert name[18] == '^';
    SlugOfPunctuation(name[18..19]);
  }

  lemma PunctuatedNameThing(name: string)
    requires name == "my!#very%20stupid ^ thing"
    ensures NameToSlug(name[19..]) == "-thing"
  {
    SlugOfPlainRun(name[19..], "-thing");
  }

  lemma PunctuatedNameText()
    ensures "my" + "" + "very" + "" + "20stupid-" + "" + "-thing" == "myvery20stupid--thing"
  {
  }

  /** A slash is percent-encoded, so the slug of an ASCII name can hold an upper-case hex digit. */
  lemma SlugOfSlash(name: string)
    requires name == "a/b"
    ensures NameToSlug(name) == "a%2Fb"
  {
    SlashFirst(name);
    SlashBar(name);
    SlashLast(name);
    SlugJoinPrefix(name, 1, 2, "a", "%2F");
    SlugJoin(name, 2, "a" + "%2F", "b");
    SlashText();
  }

  lemma SlashFirst(name: string)
    requires name == "a/b"
    ensures NameToSlug(name[..1]) == "a"
  {
    SlugOfPlainRun(name[..1], "a");
  }

  lemma SlashBar(name: string)
    requires name == "a/b"
    ensures NameToSlug(name[1..2]) == "%2F"
  {
    assert name[1..2] == ['/'];
    SlugOfChar('/');
    EncodeSlash();
  }

  lemma SlashLast(name: string)
    requires name == "a/b"
    ensures NameToSlug(name[2..]) == "b"
  {
    SlugOfPlainRun(name[2..], "b");
  }

  lemma SlashText()
    ensures "a" + "%2F" + "b" == "a%2Fb"
  {
  }

  lemma EncodeSlash()
    ensures EncodeChar('/') == "%2F"
  {
    assert Utf8('/') == [47];
    assert PercentEncode([47]) == ['%', HexDigit(2), HexDigit(15)] + PercentEncode([]);
  }
}
