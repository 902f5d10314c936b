/** Skill naming of the root package (namer.go): a source path and the
    skill's relative path become one flat, filesystem-safe link name. */
module Namer {
  import opened Strings

  /** `SkillName(src, relPath)`: both parts have "/" replaced by "_"; they are
      joined by "_" unless `relPath` is empty. */
  function SkillName(src: string, relPath: string): (r: string)
    ensures '/' !in r
    ensures |r| == if relPath == "" then |src| else |src| + 1 + |relPath|
    ensures forall i :: 0 <= i < |src| ==> r[i] == (if src[i] == '/' then '_' else src[i])
    ensures relPath != "" ==> r[|src|] == '_'
    ensures forall i :: 0 <= i < |relPath| ==>
              r[|src| + 1 + i] == (if relPath[i] == '/' then '_' else relPath[i])
  {
    var base := Flatten(src);
    if relPath == "" then base
    else base + "_" + Flatten(relPath)
  }

  /** Flattening the source first changes nothing: the base name is already flat. */
  lemma SkillNameReflatten(src: string, relPath: string)
    ensures SkillName(SkillName(src, ""), relPath) == SkillName(src, relPath)
  {
    FlattenIdempotent(src);
  }

  /** With an empty relative path the name is the flattened source alone;
      otherwise the two flattened parts with one "_" between them. */
  lemma SkillNameSplits(src: string, relPath: string)
    ensures relPath == "" ==> SkillName(src, relPath) == Flatten(src)
    ensures relPath != "" ==>
              SkillName(src, relPath) == Flatten(src) + "_" + Flatten(relPath)
  {
    var r := SkillName(src, relPath);
    if relPath == "" {
      assert r == Flatten(src);
    } else {
      assert r == Flatten(src) + "_" + Flatten(relPath);
    }
  }

  /** Names are not collision-free: "_" in a segment coincides with the separator. */
  lemma SkillNameCollides()
    ensures SkillName("a", "b/c") == SkillName("a_b", "c") == "a_b_c"
  {
  }

  /** namer_test.go:11-13: a repository identifier, alone and with a relative path. */
  lemma SkillNameRepoExamples()
    ensures SkillName("github.com/hayeah/skills", "") == "github.com_hayeah_skills"
    ensures SkillName("github.com/hayeah/skills", "foo") == "github.com_hayeah_skills_foo"
    ensures SkillName("github.com/hayeah/skills", "bar/baz") == "github.com_hayeah_skills_bar_baz"
  {
    SkillNameSplits("github.com/hayeah/skills", "");
    SkillNameSplits("github.com/hayeah/skills", "foo");
    SkillNameSplits("github.com/hayeah/skills", "bar/baz");
  }

  /** Four separator-free segments and a separator-free relative path: every
      "/" of the source becomes "_", and one more "_" joins the path. */
  lemma SkillNameOfSegments(a: string, b: string, c: string, d: string, rel: string)
    requires '/' !in a && '/' !in b && '/' !in c && '/' !in d && '/' !in rel && rel != ""
    ensures SkillName(a + "/" + b + "/" + c + "/" + d, rel) == a + "_" + b + "_" + c + "_" + d + "_" + rel
  {
    var src := a + "/" + b + "/" + c + "/" + d;
    SkillNameSplits(src, rel);
    FlattenFixesSlashFree(rel);
    assert Flatten(src) == a + "_" + b + "_" + c + "_" + d by {
      assert Flatten("/") == "_";
      FlattenConcat(a + "/" + b + "/" + c + "/", d);
      FlattenConcat(a + "/" + b + "/" + c, "/");
      FlattenConcat(a + "/" + b + "/", c);
      FlattenConcat(a + "/" + b, "/");
      FlattenConcat(a + "/", b);
      FlattenConcat(a, "/");
      FlattenFixesSlashFree(a);
      FlattenFixesSlashFree(b);
      FlattenFixesSlashFree(c);
      FlattenFixesSlashFree(d);
    }
  }

  /** The source of namer_test.go:14, in segments. */
  lemma SpellSubpathSource(src: string)
    requires src == "github.com/hayeah/dotfiles/skills"
    ensures src == "github.com" + "/" + "hayeah" + "/" + "dotfiles" + "/" + "skills"
  {
    assert "github.com" + "/" == "github.com/";
    assert "github.com/" + "hayeah" == "github.com/hayeah";
    assert "github.com/hayeah" + "/" == "github.com/hayeah/";
    assert "github.com/hayeah/" + "dotfiles" == "github.com/hayeah/dotfiles";
    assert "github.com/hayeah/dotfiles" + "/" == "github.com/hayeah/dotfiles/";
    assert "github.com/hayeah/dotfiles/" + "skills" == "github.com/hayeah/dotfiles/skills";
  }

  /** The expected name of namer_test.go:14, in segments. */
  lemma SpellSubpathName(want: string)
    requires want == "github.com_hayeah_dotfiles_skills_shell-helper"
    ensures want == "github.com" + "_" + "hayeah" + "_" + "dotfiles" + "_" + "skills" + "_" + "shell-helper"
  {
    assert "github.com" + "_" == "github.com_";
    assert "github.com_" + "hayeah" == "github.com_hayeah";
    assert "github.com_hayeah" + "_" == "github.com_hayeah_";
    assert "github.com_hayeah_" + "dotfiles" == "github.com_hayeah_dotfiles";
    assert "github.com_hayeah_dotfiles" + "_" == "github.com_hayeah_dotfiles_";
    assert "github.com_hayeah_dotfiles_" + "skills" == "github.com_hayeah_dotfiles_skills";
    assert "github.com_hayeah_dotfiles_skills" + "_" == "github.com_hayeah_dotfiles_skills_";
    assert "github.com_hayeah_dotfiles_skills_" + "shell-helper" == "github.com_hayeah_dotfiles_skills_shell-helper";
  }

  /** namer_test.go:14: an identifier with a subpath. */
  lemma SkillNameSubpathExample(src: string)
    requires src == "github.com/hayeah/dotfiles/skills"
    ensures SkillName(src, "shell-helper") == "github.com_hayeah_dotfiles_skills_shell-helper"
  {
    var want := "github.com_hayeah_dotfiles_skills_shell-helper";
    SpellSubpathSource(src);
    SpellSubpathName(want);
    SkillNameOfSegments("github.com", "hayeah", "dotfiles", "skills", "shell-helper");
  }

  /** namer_test.go:15-16: a source without separators. */
  lemma SkillNameLocalExamples()
    ensures SkillName("skills", "python") == "skills_python"
    ensures SkillName("skills", "") == "skills"
  {
    SkillNameSplits("skills", "python");
    SkillNameSplits("skills", "");
  }
}
