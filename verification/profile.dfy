/** The profile page (`components/Profile.jsx`): the editable profile fields and the skill
    list. Its deletes of the visitor's own books and posts are `Deletes.AfterDelete`. */
module Profile {
  import opened Text
  import Lists

  datatype ProfileData = ProfileData(displayName: string, photoURL: string, bio: string, skills: seq<string>, newSkill: string)

  /** The text fields an input can name. */
  datatype Field = DisplayName | PhotoURL | Bio | NewSkill

  function Read(p: ProfileData, field: Field): string {
    match field
    case DisplayName => p.displayName
    case PhotoURL => p.photoURL
    case Bio => p.bio
    case NewSkill => p.newSkill
  }

  /** `handleInputChange`: the named field takes the value and nothing else changes. */
  function InputChange(p: ProfileData, field: Field, value: string): (r: ProfileData)
    ensures Read(r, field) == value
    ensures forall other :: other != field ==> Read(r, other) == Read(p, other)
    ensures r.skills == p.skills
  {
    match field
    case DisplayName => p.(displayName := value)
    case PhotoURL => p.(photoURL := value)
    case Bio => p.(bio := value)
    case NewSkill => p.(newSkill := value)
  }

  /** Typing the old value back restores the profile. */
  lemma InputChangeRestores(p: ProfileData, field: Field, value: string)
    ensures InputChange(InputChange(p, field, value), field, Read(p, field)) == p
  {
  }

  /** `handleAddSkill`: a non-blank entry is appended trimmed and the entry box cleared;
      a blank one changes nothing. */
  function AddSkill(p: ProfileData): (r: ProfileData)
    ensures AllSpace(p.newSkill) ==> r == p
    ensures !AllSpace(p.newSkill) ==>
      r == p.(skills := p.skills + [Trim(p.newSkill)], newSkill := "")
    ensures !AllSpace(p.newSkill) ==> r.skills[|p.skills|] != "" && !IsSpace(r.skills[|p.skills|][0])
  {
    TrimEmptyIff(p.newSkill);
    TrimIdempotent(p.newSkill);
    if Trim(p.newSkill) != "" then p.(skills := p.skills + [Trim(p.newSkill)], newSkill := "") else p
  }

  /** A second click right after an addition changes nothing: the box is empty by then. */
  lemma AddSkillTwice(p: ProfileData)
    ensures AddSkill(AddSkill(p)) == AddSkill(p)
  {
    if !AllSpace(p.newSkill) {
      assert AllSpace(AddSkill(p).newSkill);
    }
  }

  function IsNot(skill: string): string -> bool {
    (s: string) => s != skill
  }

  /** `handleRemoveSkill(skill)`: every copy of the skill goes; the others keep their order. */
  function RemoveSkill(p: ProfileData, skill: string): (r: ProfileData)
    ensures skill !in r.skills
    ensures multiset(r.skills) <= multiset(p.skills)
    ensures r.(skills := p.skills) == p
  {
    var kept := Lists.Filter(p.skills, IsNot(skill));
    assert forall i :: 0 <= i < |kept| ==> kept[i] != skill;
    p.(skills := kept)
  }

  /** Exactly the other skills survive a removal. */
  lemma RemoveSkillKeepsOthers(p: ProfileData, skill: string, s: string)
    ensures s in RemoveSkill(p, skill).skills <==> s in p.skills && s != skill
  {
    Lists.FilterMembership(p.skills, IsNot(skill), s);
  }

  /** The removal works skill by skill and keeps the order: a single other skill stays,
      the removed one goes, and removing from a joined list joins the two results. */
  lemma {:induction false} RemoveSkillInOrder(p: ProfileData, a: seq<string>, b: seq<string>, skill: string, s: string)
    ensures RemoveSkill(p.(skills := a + b), skill).skills
         == RemoveSkill(p.(skills := a), skill).skills + RemoveSkill(p.(skills := b), skill).skills
    ensures RemoveSkill(p.(skills := [s]), skill).skills == if s == skill then [] else [s]
  {
    Lists.FilterConcat(a, b, IsNot(skill));
    assert Lists.Filter([s], IsNot(skill)) == (if s == skill then [] else [s]) by {
      assert [s][1..] == [];
    }
  }

  /** Removing a skill right after adding it as new undoes the addition. */
  lemma RemoveUndoesAdd(p: ProfileData)
    requires !AllSpace(p.newSkill) && Trim(p.newSkill) !in p.skills
    ensures RemoveSkill(AddSkill(p), Trim(p.newSkill)).skills == p.skills
  {
    var skill := Trim(p.newSkill);
    Lists.FilterConcat(p.skills, [skill], IsNot(skill));
    Lists.FilterAll(p.skills, IsNot(skill));
    assert Lists.Filter([skill], IsNot(skill)) == [];
  }
}
