/** The cases of the string-helper tests, proved about the model. */
module StrxCases {
  import opened Strx

  /** No candidates give the empty string; the first non-empty one wins. */
  lemma OrCases()
    ensures Or([]) == ""
    ensures Or(["", "backup"]) == "backup"
    ensures Or(["primary", ""]) == "primary"
    ensures Or(["primary", "backup"]) == "primary"
  {
    assert ["", "backup"][1..] == ["backup"];
  }

  /** Text without surrounding whitespace trims to itself. */
  lemma Trimmed(w: string)
    requires |w| > 0 && !IsSpace(w[0]) && !IsSpace(w[|w| - 1])
    ensures TrimSpace(w) == w
  {
    TrimSpaceOf("", w, "");
    assert "" + w + "" == w;
  }

  /** A word without surrounding whitespace and of another length than
      "yes" and "true" is no yes. */
  lemma OtherLength(w: string)
    requires |w| > 0 && !IsSpace(w[0]) && !IsSpace(w[|w| - 1])
    requires |w| != 3 && |w| != 4
    ensures !Yes(w)
  {
    Trimmed(w);
  }

  lemma YesWord()
    ensures Yes("yes")
  {
    Trimmed("yes");
  }

  lemma NoWord()
    ensures !Yes("no")
  {
    OtherLength("no");
  }

  lemma SpacedTrue()
    ensures Yes("  true")
  {
    TrimSpaceOf("  ", "true", "");
    assert "  " + "true" + "" == "  true";
  }

  lemma FalseWord()
    ensures !Yes("false")
  {
    OtherLength("false");
  }

  /** "yes" and "true" (also behind leading spaces) read as yes; "no",
      "false" and the empty string do not. */
  lemma YesCases()
    ensures Yes("yes")
    ensures !Yes("no")
    ensures Yes("  true")
    ensures !Yes("false")
    ensures !Yes("")
  {
    YesWord();
    NoWord();
    SpacedTrue();
    FalseWord();
  }
}
