/**
 * A worked input on which the layout of `QueryBuilderGenerator` loses the terminating `;`.
 * The query `{"a":{}}` builds the chain `$qb->add('a', $qb->objectNode())->end()`, printed
 * after `$qb = new QueryBuilder();` on its own line. Its last segment, `->end();`, follows the
 * creation of an empty object, so `structuredLine` appends the literal `->end()` to the previous
 * line instead of the segment: the output ends in `->end()` and the statement is unterminated.
 * The proof computes the segment split and the scan step by step; the `Fact` lemmas are the
 * character-level facts about the literals that each step needs.
 */
module QueryBuilderFinding {
  import opened PhpString
  import opened Lines
  import opened QueryBuilderGenerator
  import opened QueryBuilderProperties

  /** The printed code for `{"a":{}}`. */
  const Printed: string := "$qb = new QueryBuilder();\n$qb->add('a', $qb->objectNode())->end();"

  /** The segments `getLinesByCode` makes of `Printed`. */
  const Segments: seq<string> := ["$qb = new QueryBuilder();", "$qb", "->add('a', $qb->objectNode())", "->end();"]

  lemma AddStep6()
    ensures ReplaceAll(">end();", "->add", "\n->add") == ">end();"
  {
    Fact1();
    Fact2();
    Fact3();
    ShortReplace("", "->add", "\n->add");
    ReplaceSkipChunk(">end();", "", "->add", "\n->add");
  }

  lemma AddStep5()
    ensures ReplaceAll("->end();", "->add", "\n->add") == "->end();"
  {
    AddStep6();
    Fact4();
    Fact5();
    Fact6();
    ReplaceMismatch("->end();", "->add", "\n->add", 2);
  }

  lemma AddStep4()
    ensures ReplaceAll(">objectNode())->end();", "->add", "\n->add") == ">objectNode())->end();"
  {
    AddStep5();
    Fact7();
    Fact8();
    Fact9();
    ReplaceSkipChunk(">objectNode())", "->end();", "->add", "\n->add");
  }

  lemma AddStep3()
    ensures ReplaceAll("->objectNode())->end();", "->add", "\n->add") == "->objectNode())->end();"
  {
    AddStep4();
    Fact10();
    Fact11();
    Fact12();
    ReplaceMismatch("->objectNode())->end();", "->add", "\n->add", 2);
  }

  lemma AddStep2()
    ensures ReplaceAll("('a', $qb->objectNode())->end();", "->add", "\n->add") == "('a', $qb->objectNode())->end();"
  {
    AddStep3();
    Fact13();
    Fact14();
    Fact15();
    ReplaceSkipChunk("('a', $qb", "->objectNode())->end();", "->add", "\n->add");
  }

  lemma AddStep1()
    ensures ReplaceAll("->add('a', $qb->objectNode())->end();", "->add", "\n->add") == "\n->add('a', $qb->objectNode())->end();"
  {
    AddStep2();
    Fact16();
    Fact17();
    Fact18();
    ReplaceUnfoldMatch("->add('a', $qb->objectNode())->end();", "->add", "\n->add");
  }

  lemma AddStep0()
    ensures ReplaceAll("$qb = new QueryBuilder();\n$qb->add('a', $qb->objectNode())->end();", "->add", "\n->add") == "$qb = new QueryBuilder();\n$qb\n->add('a', $qb->objectNode())->end();"
  {
    AddStep1();
    Fact19();
    Fact20();
    Fact21();
    ReplaceSkipChunk("$qb = new QueryBuilder();\n$qb", "->add('a', $qb->objectNode())->end();", "->add", "\n->add");
  }

  lemma EndStep6()
    ensures ReplaceAll("();", "->end", "\n->end") == "();"
  {
    Fact22();
    Fact23();
    Fact24();
    ShortReplace("", "->end", "\n->end");
    ReplaceSkipChunk("();", "", "->end", "\n->end");
  }

  lemma EndStep5()
    ensures ReplaceAll("->end();", "->end", "\n->end") == "\n->end();"
  {
    EndStep6();
    Fact25();
    Fact26();
    Fact27();
    ReplaceUnfoldMatch("->end();", "->end", "\n->end");
  }

  lemma EndStep4()
    ensures ReplaceAll(">objectNode())->end();", "->end", "\n->end") == ">objectNode())\n->end();"
  {
    EndStep5();
    Fact28();
    Fact29();
    Fact30();
    ReplaceSkipChunk(">objectNode())", "->end();", "->end", "\n->end");
  }

  lemma EndStep3()
    ensures ReplaceAll("->objectNode())->end();", "->end", "\n->end") == "->objectNode())\n->end();"
  {
    EndStep4();
    Fact31();
    Fact32();
    Fact33();
    ReplaceMismatch("->objectNode())->end();", "->end", "\n->end", 2);
  }

  lemma EndStep2()
    ensures ReplaceAll(">add('a', $qb->objectNode())->end();", "->end", "\n->end") == ">add('a', $qb->objectNode())\n->end();"
  {
    EndStep3();
    Fact34();
    Fact35();
    Fact36();
    ReplaceSkipChunk(">add('a', $qb", "->objectNode())->end();", "->end", "\n->end");
  }

  lemma EndStep1()
    ensures ReplaceAll("->add('a', $qb->objectNode())->end();", "->end", "\n->end") == "->add('a', $qb->objectNode())\n->end();"
  {
    EndStep2();
    Fact37();
    Fact38();
    Fact39();
    ReplaceMismatch("->add('a', $qb->objectNode())->end();", "->end", "\n->end", 2);
  }

  lemma EndStep0()
    ensures ReplaceAll("$qb = new QueryBuilder();\n$qb\n->add('a', $qb->objectNode())->end();", "->end", "\n->end") == "$qb = new QueryBuilder();\n$qb\n->add('a', $qb->objectNode())\n->end();"
  {
    EndStep1();
    Fact40();
    Fact41();
    Fact42();
    ReplaceSkipChunk("$qb = new QueryBuilder();\n$qb\n", "->add('a', $qb->objectNode())->end();", "->end", "\n->end");
  }

  lemma SplitStep3()
    ensures Explode("->end();", '\n') == ["->end();"]
  {
    Fact49();
    ExplodeWhole("->end();", '\n');
  }

  lemma SplitStep2()
    ensures Explode("->add('a', $qb->objectNode())\n->end();", '\n') == ["->add('a', $qb->objectNode())", "->end();"]
  {
    SplitStep3();
    Fact47();
    Fact48();
    ExplodeChunk("->add('a', $qb->objectNode())", "->end();", '\n');
  }

  lemma SplitStep1()
    ensures Explode("$qb\n->add('a', $qb->objectNode())\n->end();", '\n') == ["$qb", "->add('a', $qb->objectNode())", "->end();"]
  {
    SplitStep2();
    Fact45();
    Fact46();
    ExplodeChunk("$qb", "->add('a', $qb->objectNode())\n->end();", '\n');
  }

  lemma SplitPrinted()
    ensures Explode("$qb = new QueryBuilder();\n$qb\n->add('a', $qb->objectNode())\n->end();", '\n') == Segments
  {
    SplitStep1();
    Fact43();
    Fact44();
    ExplodeChunk("$qb = new QueryBuilder();", "$qb\n->add('a', $qb->objectNode())\n->end();", '\n');
  }

  /** `getLinesByCode` cuts the printed code into the statement, `$qb`, the `->add` call and `->end();`. */
  lemma SegmentsOfPrinted()
    ensures GetLinesByCode(Printed) == Segments
  {
    AddStep0();
    EndStep0();
    SplitPrinted();
  }

  lemma FirstSegment()
    ensures Advance(Segments[0], "", State(0, []), "->end()") == State(0, [Row(0, Segments[0])])
  {
    Fact50();
  }

  lemma SecondSegment()
    ensures Advance(Segments[1], Segments[0], State(0, [Row(0, Segments[0])]), "->end()")
      == State(0, [Row(0, Segments[0]), Row(0, Segments[1])])
  {
  }

  lemma ThirdSegment()
    ensures Advance(Segments[2], Segments[1], State(0, [Row(0, Segments[0]), Row(0, Segments[1])]), "->end()")
      == State(1, [Row(0, Segments[0]), Row(0, Segments[1]), Row(1, Segments[2])])
  {
    ShortNotContains(Segments[1], "->end");
    ShortNotContains(Segments[1], "->boolNode");
    ShortNotContains(Segments[1], "->floatNode");
    ShortNotContains(Segments[1], "->intNode");
    ShortNotContains(Segments[1], "->nullNode");
    ShortNotContains(Segments[1], "->stringNode");
    Fact51();
  }

  lemma ThirdCreatesContainer()
    ensures CreatesContainer(Segments[2])
  {
    ContainsAt(Segments[2], "->objectNode", 14);
    Fact52();
  }

  lemma FourthIsEnd()
    ensures StartsWith(Segments[3], "->end") && !StartsWith(Segments[3], "->add")
  {
    Fact53();
    Fact54();
  }

  lemma FourthSegment(merged: string)
    ensures var rows := [Row(0, Segments[0]), Row(0, Segments[1]), Row(1, Segments[2])];
      Advance(Segments[3], Segments[2], State(1, rows), merged)
        == State(1, [Row(0, Segments[0]), Row(0, Segments[1]), Row(1, Segments[2] + merged)])
  {
    ThirdCreatesContainer();
    FourthIsEnd();
    var rows := [Row(0, Segments[0]), Row(0, Segments[1]), Row(1, Segments[2])];
    assert rows[..2] == [Row(0, Segments[0]), Row(0, Segments[1])];
  }

  /** The rows of the scan over the four segments, as written and corrected. */
  lemma ScanOfSegments(corrected: bool)
    ensures Scan(Segments, 4, corrected).rows
      == [Row(0, Segments[0]), Row(0, Segments[1]), Row(1, Segments[2] + MergedText(Segments[3], corrected))]
  {
    ScanOfThree(corrected);
    FourthSegment(MergedText(Segments[3], corrected));
    ScanStep(Segments, 4, corrected);
  }

  /** The state after the first three segments: the `->add` call opened one level. */
  lemma ScanOfThree(corrected: bool)
    ensures Scan(Segments, 3, corrected) == State(1, [Row(0, Segments[0]), Row(0, Segments[1]), Row(1, Segments[2])])
  {
    ScanOfTwo(corrected);
    ThirdSegment();
    ScanStep(Segments, 3, corrected);
  }

  /** The state after the first two segments: both unindented. */
  lemma ScanOfTwo(corrected: bool)
    ensures Scan(Segments, 2, corrected) == State(0, [Row(0, Segments[0]), Row(0, Segments[1])])
  {
    FirstSegment();
    SecondSegment();
    ScanStep(Segments, 1, corrected);
    ScanStep(Segments, 2, corrected);
  }

  /**
   * As written, the last row is `->add('a', $qb->objectNode())->end()`: the `;` of the statement
   * is gone, so the rows no longer hold the printed code.
   */
  lemma MissingSemicolon()
    ensures StructuredRows(Printed) == [Row(0, Segments[0]), Row(0, Segments[1]), Row(1, Segments[2] + "->end()")]
    ensures Concat(Texts(StructuredRows(Printed))) != Remove(Printed, '\n')
  {
    RowsOfPrinted(false);
    RowsOfPrinted(true);
    CorrectedRowsKeepText(Printed);
    OneCharacterShort(Segments[0], Segments[1], Segments[2]);
  }

  lemma OneCharacterShort(a: string, b: string, c: string)
    ensures |Concat(Texts([Row(0, a), Row(0, b), Row(1, c + "->end()")]))| + 1
         == |Concat(Texts([Row(0, a), Row(0, b), Row(1, c + "->end();")]))|
  {
    ConcatOfThree(a, b, c + "->end()");
    ConcatOfThree(a, b, c + "->end();");
    assert Texts([Row(0, a), Row(0, b), Row(1, c + "->end()")]) == [a, b, c + "->end()"];
    assert Texts([Row(0, a), Row(0, b), Row(1, c + "->end();")]) == [a, b, c + "->end();"];
  }

  lemma ConcatOfThree(a: string, b: string, c: string)
    ensures Concat([a, b, c]) == a + b + c
  {
    assert [a, b, c][1..] == [b, c];
    assert [b, c][1..] == [c];
    assert [c][1..] == [];
    assert Concat([c]) == c;
    assert Concat([b, c]) == b + c;
  }

  /** The rows of the layout of `Printed`, as written and corrected. */
  lemma RowsOfPrinted(corrected: bool)
    ensures var lines := GetLinesByCode(Printed);
      Scan(lines, |lines|, corrected).rows
        == [Row(0, Segments[0]), Row(0, Segments[1]), Row(1, Segments[2] + MergedText(Segments[3], corrected))]
  {
    SegmentsOfPrinted();
    ScanOfSegments(corrected);
  }

  /** Corrected, the last row ends in `->end();` and the statement stays terminated. */
  lemma CorrectedKeepsSemicolon()
    ensures CorrectedStructuredRows(Printed) == [Row(0, Segments[0]), Row(0, Segments[1]), Row(1, Segments[2] + Segments[3])]
  {
    RowsOfPrinted(true);
  }

  // Character-level facts about the literals used by the step lemmas above: a first character
  // that does not occur, a literal cut in two, the two halves joined back. Each is proved on its
  // own, so that no step lemma has to reason about the characters of a literal it only passes on.
  lemma Fact1() ensures "->add"[0] !in ">end();" {}
  lemma Fact2() ensures ">end();" == ">end();" + "" {}
  lemma Fact3() ensures ">end();" + "" == ">end();" {}
  lemma Fact4() ensures "->end();"[2] != "->add"[2] {}
  lemma Fact5() ensures "->end();"[1..] == ">end();" {}
  lemma Fact6() ensures ["->end();"[0]] + ">end();" == "->end();" {}
  lemma Fact7() ensures "->add"[0] !in ">objectNode())" {}
  lemma Fact8() ensures ">objectNode())->end();" == ">objectNode())" + "->end();" {}
  lemma Fact9() ensures ">objectNode())" + "->end();" == ">objectNode())->end();" {}
  lemma Fact10() ensures "->objectNode())->end();"[2] != "->add"[2] {}
  lemma Fact11() ensures "->objectNode())->end();"[1..] == ">objectNode())->end();" {}
  lemma Fact12() ensures ["->objectNode())->end();"[0]] + ">objectNode())->end();" == "->objectNode())->end();" {}
  lemma Fact13() ensures "->add"[0] !in "('a', $qb" {}
  lemma Fact14() ensures "('a', $qb->objectNode())->end();" == "('a', $qb" + "->objectNode())->end();" {}
  lemma Fact15() ensures "('a', $qb" + "->objectNode())->end();" == "('a', $qb->objectNode())->end();" {}
  lemma Fact16() ensures "->add('a', $qb->objectNode())->end();"[..5] == "->add" {}
  lemma Fact17() ensures "->add('a', $qb->objectNode())->end();"[5..] == "('a', $qb->objectNode())->end();" {}
  lemma Fact18() ensures "\n->add" + "('a', $qb->objectNode())->end();" == "\n->add('a', $qb->objectNode())->end();" {}
  lemma Fact19() ensures "->add"[0] !in "$qb = new QueryBuilder();\n$qb" {}
  lemma Fact20() ensures "$qb = new QueryBuilder();\n$qb->add('a', $qb->objectNode())->end();" == "$qb = new QueryBuilder();\n$qb" + "->add('a', $qb->objectNode())->end();" {}
  lemma Fact21() ensures "$qb = new QueryBuilder();\n$qb" + "\n->add('a', $qb->objectNode())->end();" == "$qb = new QueryBuilder();\n$qb\n->add('a', $qb->objectNode())->end();" {}
  lemma Fact22() ensures "->end"[0] !in "();" {}
  lemma Fact23() ensures "();" == "();" + "" {}
  lemma Fact24() ensures "();" + "" == "();" {}
  lemma Fact25() ensures "->end();"[..5] == "->end" {}
  lemma Fact26() ensures "->end();"[5..] == "();" {}
  lemma Fact27() ensures "\n->end" + "();" == "\n->end();" {}
  lemma Fact28() ensures "->end"[0] !in ">objectNode())" {}
  lemma Fact29() ensures ">objectNode())->end();" == ">objectNode())" + "->end();" {}
  lemma Fact30() ensures ">objectNode())" + "\n->end();" == ">objectNode())\n->end();" {}
  lemma Fact31() ensures "->objectNode())->end();"[2] != "->end"[2] {}
  lemma Fact32() ensures "->objectNode())->end();"[1..] == ">objectNode())->end();" {}
  lemma Fact33() ensures ["->objectNode())->end();"[0]] + ">objectNode())\n->end();" == "->objectNode())\n->end();" {}
  lemma Fact34() ensures "->end"[0] !in ">add('a', $qb" {}
  lemma Fact35() ensures ">add('a', $qb->objectNode())->end();" == ">add('a', $qb" + "->objectNode())->end();" {}
  lemma Fact36() ensures ">add('a', $qb" + "->objectNode())\n->end();" == ">add('a', $qb->objectNode())\n->end();" {}
  lemma Fact37() ensures "->add('a', $qb->objectNode())->end();"[2] != "->end"[2] {}
  lemma Fact38() ensures "->add('a', $qb->objectNode())->end();"[1..] == ">add('a', $qb->objectNode())->end();" {}
  lemma Fact39() ensures ["->add('a', $qb->objectNode())->end();"[0]] + ">add('a', $qb->objectNode())\n->end();" == "->add('a', $qb->objectNode())\n->end();" {}
  lemma Fact40() ensures "->end"[0] !in "$qb = new QueryBuilder();\n$qb\n" {}
  lemma Fact41() ensures "$qb = new QueryBuilder();\n$qb\n->add('a', $qb->objectNode())->end();" == "$qb = new QueryBuilder();\n$qb\n" + "->add('a', $qb->objectNode())->end();" {}
  lemma Fact42() ensures "$qb = new QueryBuilder();\n$qb\n" + "->add('a', $qb->objectNode())\n->end();" == "$qb = new QueryBuilder();\n$qb\n->add('a', $qb->objectNode())\n->end();" {}
  lemma Fact43() ensures '\n' !in "$qb = new QueryBuilder();" {}
  lemma Fact44() ensures "$qb = new QueryBuilder();\n$qb\n->add('a', $qb->objectNode())\n->end();" == "$qb = new QueryBuilder();" + ['\n'] + "$qb\n->add('a', $qb->objectNode())\n->end();" {}
  lemma Fact45() ensures '\n' !in "$qb" {}
  lemma Fact46() ensures "$qb\n->add('a', $qb->objectNode())\n->end();" == "$qb" + ['\n'] + "->add('a', $qb->objectNode())\n->end();" {}
  lemma Fact47() ensures '\n' !in "->add('a', $qb->objectNode())" {}
  lemma Fact48() ensures "->add('a', $qb->objectNode())\n->end();" == "->add('a', $qb->objectNode())" + ['\n'] + "->end();" {}
  lemma Fact49() ensures '\n' !in "->end();" {}
  lemma Fact50() ensures "$qb = new QueryBuilder();"[0] != "->add"[0] && "$qb = new QueryBuilder();"[0] != "->end"[0] {}
  lemma Fact51() ensures "->add('a', $qb->objectNode())"[..5] == "->add" {}
  lemma Fact52() ensures "->add('a', $qb->objectNode())"[2] != "->objectNode"[2] {}
  lemma Fact53() ensures "->end();"[2] != "->add"[2] {}
  lemma Fact54() ensures "->end();"[..5] == "->end" {}
}
