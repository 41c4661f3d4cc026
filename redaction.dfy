/**
 * `remove_named_entities` of the main pipeline. The recogniser's answer is
 * an input: a list of entities, each a surface word and an entity group.
 * For every entity whose group is among the labels to remove, every
 * occurrence of its word is deleted from the working text with
 * `str.replace(word, '')`, entity after entity, in the reported order.
 */
module Redaction {
  import opened Seqs

  /** One aggregated recogniser result: the matched surface text and its group. */
  datatype Entity = Entity(word: string, group: string)

  /** `pat` occurs in `s` starting at position `i`. */
  predicate OccursAt(pat: string, s: string, i: int)
  {
    0 <= i && i + |pat| <= |s| && s[i..i + |pat|] == pat
  }

  predicate Occurs(pat: string, s: string)
  {
    exists i :: 0 <= i <= |s| - |pat| && OccursAt(pat, s, i)
  }

  /**
   * Python's `s.replace(pat, '')`: scanning left to right, each occurrence of
   * `pat` is cut out and the scan resumes after it; an empty pattern leaves
   * the string as it is.
   */
  function DeleteAll(s: string, pat: string): (r: string)
    ensures |r| <= |s|
    ensures forall k :: 0 <= k < |r| ==> r[k] in s
    decreases |s|
  {
    if pat == [] || |s| < |pat| then s
    else if s[..|pat|] == pat then DeleteAll(s[|pat|..], pat)
    else [s[0]] + DeleteAll(s[1..], pat)
  }

  /** How many copies of the pattern `DeleteAll` cuts out. */
  function DeletedCopies(s: string, pat: string): nat
    decreases |s|
  {
    if pat == [] || |s| < |pat| then 0
    else if s[..|pat|] == pat then 1 + DeletedCopies(s[|pat|..], pat)
    else DeletedCopies(s[1..], pat)
  }

  /** Deletion removes whole copies of the pattern and nothing else: the length lost is that of the copies cut out. */
  lemma {:induction false} DeleteAllRemovesWholeCopies(s: string, pat: string)
    ensures |s| - |DeleteAll(s, pat)| == |pat| * DeletedCopies(s, pat)
    decreases |s|
  {
    if pat == [] || |s| < |pat| {
    } else if s[..|pat|] == pat {
      var rest := s[|pat|..];
      var n := DeletedCopies(rest, pat);
      DeleteAllRemovesWholeCopies(rest, pat);
      assert DeletedCopies(s, pat) == 1 + n;
      assert DeleteAll(s, pat) == DeleteAll(rest, pat);
      assert |s| == |pat| + |rest|;
      MulSucc(|pat|, n);
    } else {
      DeleteAllRemovesWholeCopies(s[1..], pat);
      assert DeletedCopies(s, pat) == DeletedCopies(s[1..], pat);
      assert |DeleteAll(s, pat)| == 1 + |DeleteAll(s[1..], pat)|;
    }
  }

  lemma MulSucc(a: int, n: int)
    ensures a * (1 + n) == a + a * n
  {
  }

  /** Text without an occurrence of the pattern comes back unchanged. */
  lemma {:induction false} DeleteAllAbsent(s: string, pat: string)
    requires pat != [] && !Occurs(pat, s)
    ensures DeleteAll(s, pat) == s
    decreases |s|
  {
    if |s| >= |pat| {
      assert !OccursAt(pat, s, 0);
      if !Occurs(pat, s[1..]) {
        DeleteAllAbsent(s[1..], pat);
        assert s == [s[0]] + s[1..];
      } else {
        var i :| 0 <= i <= |s[1..]| - |pat| && OccursAt(pat, s[1..], i);
        assert s[i + 1..i + 1 + |pat|] == s[1..][i..i + |pat|];
        assert OccursAt(pat, s, i + 1);
      }
    }
  }

  /** Text with an occurrence of the pattern comes back strictly shorter. */
  lemma {:induction false} DeleteAllPresent(s: string, pat: string)
    requires pat != [] && Occurs(pat, s)
    ensures |DeleteAll(s, pat)| < |s|
    decreases |s|
  {
    var i :| 0 <= i <= |s| - |pat| && OccursAt(pat, s, i);
    if s[..|pat|] != pat {
      assert i > 0;
      assert s[1..][i - 1..i - 1 + |pat|] == s[i..i + |pat|];
      assert OccursAt(pat, s[1..], i - 1);
      DeleteAllPresent(s[1..], pat);
    }
  }

  /** For a non-empty pattern, `replace` changes the text exactly when the pattern occurs in it. */
  lemma DeleteAllUnchangedIff(s: string, pat: string)
    requires pat != []
    ensures DeleteAll(s, pat) == s <==> !Occurs(pat, s)
  {
    if Occurs(pat, s) {
      DeleteAllPresent(s, pat);
    } else {
      DeleteAllAbsent(s, pat);
    }
  }

  /**
   * Deleting every occurrence does not leave a pattern-free text: the
   * pieces around a deleted copy can join into a new copy, as "aabb" with
   * "ab" deleted becomes "ab".
   */
  lemma DeletionCanReassemble(s: string, pat: string)
    requires s == "aabb" && pat == "ab"
    ensures DeleteAll(s, pat) == pat
    ensures Occurs(pat, DeleteAll(s, pat))
  {
    assert s[..2][1] != pat[1];
    assert s[1..][..2] == pat;
    var t := s[1..];
    assert t[2..] == "b";
    assert DeleteAll(t[2..], pat) == "b";
    assert DeleteAll(t, pat) == "b";
    assert DeleteAll(s, pat) == [s[0]] + "b";
    assert OccursAt(pat, DeleteAll(s, pat), 0);
  }

  /** The entity's group is one of the labels to remove. */
  predicate IsSuppressed(e: Entity, labels: seq<string>)
  {
    e.group in labels
  }

  /** The redaction loop as a fold: the text after the entities have been handled in order. */
  function Redact(text: string, entities: seq<Entity>, labels: seq<string>): (r: string)
    ensures |r| <= |text|
    ensures forall k :: 0 <= k < |r| ==> r[k] in text
  {
    if entities == [] then text
    else
      var prev := Redact(text, entities[..|entities| - 1], labels);
      var e := entities[|entities| - 1];
      if IsSuppressed(e, labels) then DeleteAll(prev, e.word) else prev
  }

  /**
   * The loop of `remove_named_entities`: the text is reassigned once per
   * entity, with the entity's word deleted when its group is to be removed.
   */
  method RemoveNamedEntities(text: string, entities: seq<Entity>, labels: seq<string>) returns (r: string)
    ensures r == Redact(text, entities, labels)
  {
    r := text;
    var i := 0;
    while i < |entities|
      invariant 0 <= i <= |entities|
      invariant r == Redact(text, entities[..i], labels)
    {
      var entity := entities[i];
      assert entities[..i + 1][..i] == entities[..i];
      if entity.group in labels {
        r := DeleteAll(r, entity.word);
      }
      i := i + 1;
    }
    assert entities[..i] == entities;
  }

  /** When no entity's group is to be removed, the text comes back unchanged. */
  lemma {:induction false} RedactNothingSuppressed(text: string, entities: seq<Entity>, labels: seq<string>)
    requires forall i :: 0 <= i < |entities| ==> entities[i].group !in labels
    ensures Redact(text, entities, labels) == text
  {
    if entities != [] {
      RedactNothingSuppressed(text, entities[..|entities| - 1], labels);
    }
  }

  /** Only the suppressed entities matter: the others can be dropped from the list beforehand. */
  lemma {:induction false} RedactOnlySuppressed(text: string, entities: seq<Entity>, labels: seq<string>)
    ensures Redact(text, entities, labels) == Redact(text, Filter(entities, (e: Entity) => IsSuppressed(e, labels)), labels)
  {
    var keep := (e: Entity) => IsSuppressed(e, labels);
    if entities != [] {
      var init := entities[..|entities| - 1];
      var e := entities[|entities| - 1];
      RedactOnlySuppressed(text, init, labels);
      var f := Filter(init, keep);
      if keep(e) {
        assert Filter(entities, keep) == f + [e];
        assert (f + [e])[..|f + [e]| - 1] == f;
      } else {
        assert Filter(entities, keep) == f;
      }
    }
  }

  /** A single suppressed entity whose word occurs in the text is removed, and the text shrinks. */
  lemma RedactOneEntity(text: string, e: Entity, labels: seq<string>)
    requires IsSuppressed(e, labels) && e.word != [] && Occurs(e.word, text)
    ensures Redact(text, [e], labels) == DeleteAll(text, e.word)
    ensures |Redact(text, [e], labels)| < |text|
  {
    assert [e][..0] == [];
    DeleteAllPresent(text, e.word);
  }

  /**
   * The tags of the token classifier, and the group the recogniser reports
   * for an aggregated span of them: with simple aggregation a "B-" or "I-"
   * prefix is dropped, so "B-PER" and "I-PER" spans are both reported as
   * "PER"; a tag without such a prefix is reported as it is.
   */
  function AggregatedGroup(tag: string): (g: string)
    ensures |g| <= |tag|
    ensures g == tag[|tag| - |g|..]
  {
    if |tag| >= 2 && (tag[0] == 'B' || tag[0] == 'I') && tag[1] == '-' then tag[2..] else tag
  }

  /** The labels `clean_pdf_document` passes as the labels to remove. */
  const SourceLabels: seq<string> := ["B-PER", "I-PER", "B-ORG", "I-ORG", "B-LOC", "I-LOC"]

  /** The groups aggregated person, organisation and location spans are reported under. */
  const AggregatedGroups: seq<string> := ["PER", "ORG", "LOC"]

  /** The labels to remove, corrected: the aggregated groups, with the tag labels kept alongside. */
  const SuppressedGroups: seq<string> := AggregatedGroups + SourceLabels

  /** Every tag label the source lists is reported under one of the aggregated groups, never under itself. */
  lemma SourceLabelsAggregate(i: int)
    requires 0 <= i < |SourceLabels|
    ensures AggregatedGroup(SourceLabels[i]) in AggregatedGroups
    ensures AggregatedGroup(SourceLabels[i]) !in SourceLabels
  {
    var t := SourceLabels[i];
    assert |t| == 5 && t[1] == '-' && (t[0] == 'B' || t[0] == 'I');
    assert AggregatedGroup(t) == t[2..];
    assert t[2..] == AggregatedGroups[i / 2] by {
      if i == 0 { assert t == "B-PER"; }
      else if i == 1 { assert t == "I-PER"; }
      else if i == 2 { assert t == "B-ORG"; }
      else if i == 3 { assert t == "I-ORG"; }
      else if i == 4 { assert t == "B-LOC"; }
      else { assert t == "I-LOC"; }
    }
    assert forall j :: 0 <= j < |SourceLabels| ==> |SourceLabels[j]| == 5;
  }

  /**
   * As written, the labels to remove never match an aggregated group, so
   * for any recogniser answer made of person, organisation and location
   * entities the text comes back unchanged.
   */
  lemma AsWrittenRedactsNothing(text: string, entities: seq<Entity>)
    requires forall i :: 0 <= i < |entities| ==> entities[i].group in AggregatedGroups
    ensures Redact(text, entities, SourceLabels) == text
  {
    forall i | 0 <= i < |entities|
      ensures entities[i].group !in SourceLabels
    {
      var g := entities[i].group;
      assert g == "PER" || g == "ORG" || g == "LOC";
    }
    RedactNothingSuppressed(text, entities, SourceLabels);
  }

  /** With the corrected labels, a reported person, organisation or location that occurs in the text is removed. */
  lemma CorrectedRedactsEntity(text: string, e: Entity)
    requires e.group in AggregatedGroups && e.word != [] && Occurs(e.word, text)
    ensures Redact(text, [e], SuppressedGroups) == DeleteAll(text, e.word)
    ensures |Redact(text, [e], SuppressedGroups)| < |text|
  {
    RedactOneEntity(text, e, SuppressedGroups);
  }
}
