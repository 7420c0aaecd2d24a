/** The pinned table of `docs/persona-builder/verify_golden.py` and the slugs it gives. */
module SlugTable {
  import opened Slug

  type NonAscii = s: string | forall i :: 0 <= i < |s| ==> s[i] >= '\U{0080}'

  datatype Group = Group(replacement: Word, characters: NonAscii)

  const GROUPS_A_TO_D: seq<Group> := [
    Group("a", "ÀÁÂÃÄÅàáâãäåĀāĂăĄą"),
    Group("ae", "Ææ"),
    Group("c", "ÇçĆćĈĉĊċČč"),
    Group("d", "ÐðĎďĐđ")
  ]

  const GROUPS_E_TO_I: seq<Group> := [
    Group("e", "ÈÉÊËèéêëĒēĔĕĖėĘęĚě"),
    Group("g", "ĜĝĞğĠġĢģ"),
    Group("h", "ĤĥĦħ"),
    Group("i", "ÌÍÎÏìíîïĨĩĪīĬĭĮįİı")
  ]

  const GROUPS_J_TO_N: seq<Group> := [
    Group("j", "Ĵĵ"),
    Group("k", "Ķķĸ"),
    Group("l", "ĹĺĻļĽľĿŀŁł"),
    Group("n", "ÑñŃńŅņŇňŉŊŋ")
  ]

  const GROUPS_O_TO_S: seq<Group> := [
    Group("o", "ÒÓÔÕÖØòóôõöøŌōŎŏŐő"),
    Group("oe", "Œœ"),
    Group("r", "ŔŕŖŗŘř"),
    Group("s", "ŚśŜŝŞşŠš")
  ]

  const GROUPS_SS_TO_Z: seq<Group> := [
    Group("ss", "ß"),
    Group("t", "ŢţŤťŦŧ"),
    Group("u", "ÙÚÛÜùúûüŨũŪūŬŭŮůŰűŲų"),
    Group("w", "Ŵŵ"),
    Group("y", "ÝýÿŶŷŸ"),
    Group("z", "ŹźŻżŽž")
  ]

  /** The dictionary comprehension over the groups; a later entry overrides an earlier one. */
  function TableOf(groups: seq<Group>): Table {
    if groups == [] then map[]
    else
      var last := groups[|groups| - 1];
      TableOf(groups[..|groups| - 1]) + map c | c in last.characters :: last.replacement
  }

  const SLUG_TRANSLITERATION: Table := TableOf(GroupsOfTable())

  function GroupsOfTable(): seq<Group> {
    GROUPS_A_TO_D + GROUPS_E_TO_I + GROUPS_J_TO_N + GROUPS_O_TO_S + GROUPS_SS_TO_Z
  }

  predicate Lists(groups: seq<Group>, i: int, c: char) {
    0 <= i < |groups| && c in groups[i].characters
  }

  lemma LastGroup(groups: seq<Group>, c: char)
    requires groups != []
    ensures var n := |groups| - 1;
            && (c in TableOf(groups) <==> c in groups[n].characters || c in TableOf(groups[..n]))
            && (c in TableOf(groups) ==>
                  TableOf(groups)[c]
                  == if c in groups[n].characters then groups[n].replacement else TableOf(groups[..n])[c])
  {
  }

  /** A character is in the table exactly when some group lists it, and the last such group replaces it. */
  lemma {:induction false} TableIs(groups: seq<Group>, c: char) returns (last: int)
    ensures c in TableOf(groups) <==> last >= 0
    ensures last >= 0 ==> Lists(groups, last, c) && TableOf(groups)[c] == groups[last].replacement
    ensures forall i :: Lists(groups, i, c) ==> i <= last
    decreases |groups|
  {
    if groups == [] {
      return -1;
    }
    var n := |groups| - 1;
    LastGroup(groups, c);
    if c in groups[n].characters {
      return n;
    }
    last := TableIs(groups[..n], c);
    assert forall i :: Lists(groups, i, c) ==> Lists(groups[..n], i, c);
  }

  method PersonaSlug(name: string) returns (slug: string)
    ensures slug == Slug.Slug(SLUG_TRANSLITERATION, name)
  {
    slug := CanonicalSlug(SLUG_TRANSLITERATION, name);
  }
}
