/** The configuration script of the legacy tree: a missing file is created
    from the built-in template; an existing file is updated by reading it,
    loading the template and copying every old value whose section and
    option the template also has; a path that exists but is no file is
    refused. Reading and writing files and parsing INI text are not
    modelled: the old file and the template come in already parsed. */
module CreateConfig {
  import opened Wrappers

  /** One section: option name to value (`None` for an option written
      without a value). Option names are case-sensitive (`optionxform` is
      the identity). */
  type Section = map<string, Option<string>>

  /** A parsed configuration: section name to section. */
  type Ini = map<string, Section>

  /** What the given path names on disk. */
  datatype PathKind = Missing | RegularFile | OtherEntry

  /** The outcome of a run: the configuration written to a new file, or
      the one written back over an existing file. */
  datatype Outcome = Created(config: Ini) | Updated(config: Ini)

  /** The value the update leaves at section `s`, option `o` of the
      template: the old one where the old file has that option in that
      section, the template's otherwise. */
  function MergedValue(template: Ini, previous: Ini, s: string, o: string): Option<string>
    requires s in template && o in template[s]
  {
    if s in previous && o in previous[s] then previous[s][o] else template[s][o]
  }

  /** The template with the old values copied in, section by section. */
  function Merged(template: Ini, previous: Ini): Ini {
    map s | s in template :: MergedSection(template, previous, s)
  }

  function MergedSection(template: Ini, previous: Ini, s: string): Section
    requires s in template
  {
    map o | o in template[s] :: MergedValue(template, previous, s, o)
  }

  /** The merged configuration has exactly the template's sections and, in
      each, exactly the template's options. */
  lemma MergedShape(template: Ini, previous: Ini)
    ensures Merged(template, previous).Keys == template.Keys
    ensures forall s :: s in template ==> Merged(template, previous)[s].Keys == template[s].Keys
  {
    var m := Merged(template, previous);
    forall s | s in template ensures m[s].Keys == template[s].Keys {
      assert m[s] == MergedSection(template, previous, s);
    }
  }

  /** An option keeps its old value when the old file has the same option
      in the same section, and has the template's value when it does not. */
  lemma MergedValues(template: Ini, previous: Ini, s: string, o: string)
    requires s in template && o in template[s]
    ensures s in Merged(template, previous) && o in Merged(template, previous)[s]
    ensures s in previous && o in previous[s] ==> Merged(template, previous)[s][o] == previous[s][o]
    ensures !(s in previous && o in previous[s]) ==> Merged(template, previous)[s][o] == template[s][o]
  {
    assert Merged(template, previous)[s] == MergedSection(template, previous, s);
  }

  /** Sections and options found only in the old file are dropped. */
  lemma OldOnlyDropped(template: Ini, previous: Ini, s: string, o: string)
    requires s in previous && o in previous[s]
    ensures s !in template ==> s !in Merged(template, previous)
    ensures s in template && o !in template[s] ==> o !in Merged(template, previous)[s]
  {
    if s in template {
      assert Merged(template, previous)[s] == MergedSection(template, previous, s);
    }
  }

  /** With an old file that has nothing in common with the template the
      update writes the template unchanged. */
  lemma DisjointKeepsTemplate(template: Ini, previous: Ini)
    requires forall s :: s in previous && s in template ==> previous[s].Keys !! template[s].Keys
    ensures Merged(template, previous) == template
  {
    var m := Merged(template, previous);
    forall s | s in template ensures m[s] == template[s] {
      var a, b := m[s], template[s];
      assert a == MergedSection(template, previous, s);
      forall o | o in b ensures a[o] == b[o] {
        if s in previous {
          assert o !in previous[s];
        }
      }
      assert a.Keys == b.Keys;
    }
  }

  /** Updating with the template itself as the old file writes the
      template again. */
  lemma SelfUpdateKeepsTemplate(template: Ini)
    ensures Merged(template, template) == template
  {
    var m := Merged(template, template);
    forall s | s in template ensures m[s] == template[s] {
      var a, b := m[s], template[s];
      assert a == MergedSection(template, template, s);
      assert a.Keys == b.Keys;
    }
  }

  /** The part of the merge done once the old sections in `done` have
      been copied. */
  function MergedUpTo(template: Ini, previous: Ini, done: set<string>): Ini {
    map s | s in template :: if s in done then MergedSection(template, previous, s) else template[s]
  }

  /** The part of one section's copy done once the old options in `done`
      have been copied. */
  function SectionUpTo(template: Ini, previous: Ini, s: string, done: set<string>): Section
    requires s in template
  {
    map o | o in template[s] :: if o in done && s in previous && o in previous[s] then previous[s][o] else template[s][o]
  }

  /** `ConfigParser` as the script uses it: its sections, changed in place
      by `set`. */
  class ConfigParser {
    var sections: Ini

    /** `read_string(CONFIG_TEXT)` on a fresh parser, with the parse given. */
    constructor (template: Ini)
      ensures sections == template
    {
      sections := template;
    }

    /** `has_section`. */
    function HasSection(s: string): (r: bool)
      reads this
      ensures r <==> s in sections
    {
      s in sections
    }

    /** `has_option`: false for a missing section. */
    function HasOption(s: string, o: string): (r: bool)
      reads this
      ensures r <==> s in sections && o in sections[s]
    {
      s in sections && o in sections[s]
    }

    /** `set` on an existing section: the option takes the value, nothing
        else changes. */
    method Set(s: string, o: string, v: Option<string>)
      requires s in sections
      modifies this
      ensures sections == old(sections)[s := old(sections)[s][o := v]]
    {
      sections := sections[s := sections[s][o := v]];
    }

    /** The loop `for section in old_config.sections(): ...`: every old
        value whose section and option this parser has is copied in. */
    method UseOldValues(previous: Ini)
      modifies this
      ensures sections == Merged(old(sections), previous)
    {
      ghost var template := sections;
      MergedUpToNone(template, previous);
      var remaining := previous.Keys;
      while remaining != {}
        invariant remaining <= previous.Keys
        invariant sections == MergedUpTo(template, previous, previous.Keys - remaining)
        decreases remaining
      {
        var s :| s in remaining;
        ghost var done := previous.Keys - remaining;
        if HasSection(s) {
          UseOldSection(previous, s, template, done);
        } else {
          SkipSection(template, previous, done, s);
        }
        remaining := remaining - {s};
        assert previous.Keys - remaining == done + {s};
      }
      MergedAll(template, previous);
    }

    /** The inner loop for one section of the old file present here. */
    method UseOldSection(previous: Ini, s: string, ghost template: Ini, ghost done: set<string>)
      requires s in previous && s in template && s !in done
      requires sections == MergedUpTo(template, previous, done)
      modifies this
      ensures sections == MergedUpTo(template, previous, done + {s})
    {
      var remaining := previous[s].Keys;
      ghost var before := sections;
      assert before[s] == template[s];
      SectionUpToNone(template, previous, s);
      assert sections == before[s := SectionUpTo(template, previous, s, {})];
      assert previous[s].Keys - remaining == {};
      while remaining != {}
        invariant remaining <= previous[s].Keys
        invariant s in sections
        invariant sections == before[s := SectionUpTo(template, previous, s, previous[s].Keys - remaining)]
        decreases remaining
      {
        var o :| o in remaining;
        ghost var doneOptions := previous[s].Keys - remaining;
        if HasOption(s, o) {
          SetKeepsUpTo(template, previous, s, doneOptions, o);
          Set(s, o, previous[s][o]);
        } else {
          SkipOption(template, previous, s, doneOptions, o);
        }
        remaining := remaining - {o};
        assert previous[s].Keys - remaining == doneOptions + {o};
      }
      assert previous[s].Keys - remaining == previous[s].Keys;
      SectionDone(template, previous, s, done);
    }
  }

  /** With no section done the progress is the template. */
  lemma MergedUpToNone(template: Ini, previous: Ini)
    ensures MergedUpTo(template, previous, {}) == template
  {
  }

  /** With no option done a section's progress is the template's section. */
  lemma SectionUpToNone(template: Ini, previous: Ini, s: string)
    requires s in template
    ensures SectionUpTo(template, previous, s, {}) == template[s]
  {
  }

  /** Copying option `o` of section `s` extends the section's progress by
      `o`, as long as the template has the option. */
  lemma SetKeepsUpTo(template: Ini, previous: Ini, s: string, done: set<string>, o: string)
    requires s in template && s in previous && o in previous[s] && o in template[s] && o !in done
    ensures SectionUpTo(template, previous, s, done)[o := previous[s][o]] == SectionUpTo(template, previous, s, done + {o})
  {
  }

  /** An option the template lacks changes nothing when skipped. */
  lemma SkipOption(template: Ini, previous: Ini, s: string, done: set<string>, o: string)
    requires s in template && o !in template[s]
    ensures SectionUpTo(template, previous, s, done) == SectionUpTo(template, previous, s, done + {o})
  {
  }

  /** A section the template lacks changes nothing when skipped. */
  lemma SkipSection(template: Ini, previous: Ini, done: set<string>, s: string)
    requires s !in template
    ensures MergedUpTo(template, previous, done) == MergedUpTo(template, previous, done + {s})
  {
  }

  /** Once all of section `s`'s old options are copied the section is
      merged. */
  lemma SectionDone(template: Ini, previous: Ini, s: string, done: set<string>)
    requires s in previous && s in template && s !in done
    ensures MergedUpTo(template, previous, done)[s := SectionUpTo(template, previous, s, previous[s].Keys)]
         == MergedUpTo(template, previous, done + {s})
  {
    var a := SectionUpTo(template, previous, s, previous[s].Keys);
    var b := MergedSection(template, previous, s);
    assert a == b by {
      assert a.Keys == b.Keys;
    }
  }

  /** With every old section done, the progress is the whole merge. */
  lemma MergedAll(template: Ini, previous: Ini)
    ensures MergedUpTo(template, previous, previous.Keys) == Merged(template, previous)
  {
    var a, b := MergedUpTo(template, previous, previous.Keys), Merged(template, previous);
    forall s | s in template ensures a[s] == b[s] {
      if s !in previous {
        var t, m := template[s], MergedSection(template, previous, s);
        assert t == m by {
          assert t.Keys == m.Keys;
        }
      }
    }
  }

  /** The script: a path that exists but is no file raises ValueError; an
      existing file is updated from the template; a missing one is created
      from it. */
  method CreateOrUpdate(path: PathKind, template: Ini, oldFile: Ini) returns (r: Result<Outcome>)
    ensures path == OtherEntry <==> r == Err(ValueError)
    ensures path == RegularFile ==> r == Ok(Updated(Merged(template, oldFile)))
    ensures path == Missing ==> r == Ok(Created(template))
  {
    if path == OtherEntry {
      return Err(ValueError);
    } else if path == RegularFile {
      var newConfig := new ConfigParser(template);
      newConfig.UseOldValues(oldFile);
      return Ok(Updated(newConfig.sections));
    } else {
      var config := new ConfigParser(template);
      return Ok(Created(config.sections));
    }
  }
}
