/** Skill naming of package internal/skill (internal/skill/namer.go): the base
    name is taken as already flat, only the relative path is flattened. */
module SkillNamer {
  import opened Strings
  import Namer

  /** `Name(baseName, relPath)`. */
  function Name(baseName: string, relPath: string): (r: string)
    ensures relPath == "" ==> r == baseName
    ensures HasPrefix(r, baseName)
    ensures relPath != "" ==> |r| == |baseName| + 1 + |relPath| && r[|baseName|] == '_'
    ensures '/' !in r[|baseName|..]
    ensures forall i :: 0 <= i < |relPath| && relPath[i] != '/' ==> r[|baseName| + 1 + i] == relPath[i]
    ensures forall i :: 0 <= i < |relPath| && relPath[i] == '/' ==> r[|baseName| + 1 + i] == '_'
  {
    if relPath == "" then baseName
    else
      var r := baseName + "_" + Flatten(relPath);
      assert r[|baseName|..] == "_" + Flatten(relPath);
      r
  }

  /** The two namers agree once the source has been flattened. */
  lemma {:induction false} NameAgreesWithSkillName(src: string, relPath: string)
    ensures Namer.SkillName(src, relPath) == Name(Flatten(src), relPath)
  {
    Namer.SkillNameSplits(src, relPath);
  }

  /** internal/skill/namer_test.go:13-15: a flat base name, alone and with a relative path. */
  lemma NameRepoExamples()
    ensures Name("github.com_hayeah_skills", "") == "github.com_hayeah_skills"
    ensures Name("github.com_hayeah_skills", "foo") == "github.com_hayeah_skills_foo"
    ensures Name("github.com_hayeah_skills", "bar/baz") == "github.com_hayeah_skills_bar_baz"
  {
    assert Flatten("foo") == "foo";
    assert Flatten("bar/baz") == "bar_baz";
  }

  /** internal/skill/namer_test.go:16-17: a longer base name. */
  lemma NameSubpathExamples()
    ensures Name("github.com_hayeah_dotfiles_skills", "") == "github.com_hayeah_dotfiles_skills"
    ensures Name("github.com_hayeah_dotfiles_skills", "shell-helper")
            == "github.com_hayeah_dotfiles_skills_shell-helper"
  {
    FlattenFixesSlashFree("shell-helper");
    assert "github.com_hayeah_dotfiles_skills" + "_" == "github.com_hayeah_dotfiles_skills_";
    assert "github.com_hayeah_dotfiles_skills_" + "shell-helper" == "github.com_hayeah_dotfiles_skills_shell-helper";
  }

  /** internal/skill/namer_test.go:18-19: a short base name. */
  lemma NameLocalExamples()
    ensures Name("skills", "python") == "skills_python"
    ensures Name("skills", "") == "skills"
  {
    FlattenFixesSlashFree("python");
  }
}
