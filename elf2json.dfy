/**
 * The build step that turns the stub's ELF file into the JSON record the
 * flashing tool loads: entry point, `.text` bytes padded to a multiple of
 * four and their load address, `.data` bytes and address when there is a
 * `.data` section, and the address of `.bss` when there is one.
 *
 * The ELF file comes already parsed: its entry point, its sections with
 * contents and its no-bits sections, each with a name and an address.
 * Looking a section up by name gives the first section of that name, and
 * fails when there is none.
 */
module Elf2Json {
  import opened Common

  datatype Section = Section(name: string, addr: nat, data: seq<byte>)

  /** What the stub record is built from. */
  datatype Elf = Elf(entrypoint: nat, sections: seq<Section>, nobitsSections: seq<Section>)

  /** The keys of the JSON record; an absent key is `None`. */
  datatype Stub = Stub(entry: nat, text: seq<byte>, textStart: nat,
                       data: Option<seq<byte>>, dataStart: Option<nat>, bssStart: Option<nat>)

  /** The warnings written to standard error. */
  datatype Warning = NoDataSection | NoBssSection

  /** Some section in `sections` is named `name`. */
  predicate HasSection(sections: seq<Section>, name: string)
  {
    exists i :: 0 <= i < |sections| && sections[i].name == name
  }

  /** `i` is the index of the first section named `name`. */
  predicate IsFirst(sections: seq<Section>, name: string, i: int)
  {
    0 <= i < |sections| && sections[i].name == name
    && forall j :: 0 <= j < i ==> sections[j].name != name
  }

  /** Section lookup by name: the first section so named, or `None` for the lookup error. */
  function GetSection(sections: seq<Section>, name: string): (r: Option<Section>)
    ensures r.None? <==> !HasSection(sections, name)
    ensures r.Some? ==> exists i :: IsFirst(sections, name, i) && sections[i] == r.value
  {
    if sections == [] then None
    else if sections[0].name == name then
      assert IsFirst(sections, name, 0);
      Some(sections[0])
    else
      var r := GetSection(sections[1..], name);
      assert forall i :: 0 < i < |sections| ==> sections[1..][i - 1] == sections[i];
      if r.Some? then
        assert exists i :: IsFirst(sections, name, i) && sections[i] == r.value by {
          var i :| IsFirst(sections[1..], name, i) && sections[1..][i] == r.value;
          assert IsFirst(sections, name, i + 1);
        }
        r
      else
        assert !HasSection(sections, name) by {
          forall i | 0 < i < |sections|
            ensures sections[i].name != name
          {
            assert sections[1..][i - 1] == sections[i];
          }
        }
        r
  }

  /**
   * The padding at the end of `get_stub_sections`: fewer than four zero
   * bytes after the text, bringing its length to a multiple of four; text
   * already so aligned is left as it is.
   */
  method PadText(text: seq<byte>) returns (padded: seq<byte>)
    ensures |padded| % 4 == 0 && |text| <= |padded| < |text| + 4
    ensures padded[..|text|] == text
    ensures forall k :: |text| <= k < |padded| ==> padded[k] == 0
    ensures |text| % 4 == 0 ==> padded == text
  {
    padded := text;
    var bytesOverreach := |text| % 4;
    if bytesOverreach != 0 {
      padded := padded + seq(4 - bytesOverreach, _ => 0);
    }
  }

  /** The `for … else` over the no-bits sections: the address of the first one named `.bss`. */
  method FindBss(nobitsSections: seq<Section>) returns (bssStart: Option<nat>)
    ensures bssStart.Some? <==> HasSection(nobitsSections, ".bss")
    ensures bssStart.Some? ==> exists i :: IsFirst(nobitsSections, ".bss", i) && nobitsSections[i].addr == bssStart.value
  {
    bssStart := None;
    for i := 0 to |nobitsSections|
      invariant forall j :: 0 <= j < i ==> nobitsSections[j].name != ".bss"
    {
      if nobitsSections[i].name == ".bss" {
        assert IsFirst(nobitsSections, ".bss", i);
        return Some(nobitsSections[i].addr);
      }
    }
  }

  /**
   * `get_stub_sections`.  `None` when there is no `.text` section, the
   * lookup error the script does not catch.  Otherwise the record holds
   * the entry point, the `.text` bytes followed by fewer than four zero
   * bytes that bring their length to a multiple of four, and the `.text`
   * address; the `.data` bytes and address exactly when there is a `.data`
   * section; the address of the first no-bits section named `.bss`, when
   * there is one.  A missing `.data` or `.bss` section is warned about.
   */
  method GetStubSections(elf: Elf) returns (stub: Option<Stub>, warnings: seq<Warning>)
    ensures stub.None? <==> !HasSection(elf.sections, ".text")
    ensures stub.Some? ==>
      var t := GetSection(elf.sections, ".text").value;
      var s := stub.value;
      && s.entry == elf.entrypoint && s.textStart == t.addr
      && |s.text| % 4 == 0 && |t.data| <= |s.text| < |t.data| + 4
      && s.text[..|t.data|] == t.data
      && (forall k :: |t.data| <= k < |s.text| ==> s.text[k] == 0)
      && (s.data.Some? <==> HasSection(elf.sections, ".data"))
      && (s.dataStart.Some? <==> HasSection(elf.sections, ".data"))
      && (s.data.Some? ==> s.data.value == GetSection(elf.sections, ".data").value.data
                           && s.dataStart.value == GetSection(elf.sections, ".data").value.addr)
      && (s.bssStart.Some? <==> HasSection(elf.nobitsSections, ".bss"))
      && (s.bssStart.Some? ==> exists i :: IsFirst(elf.nobitsSections, ".bss", i)
                                           && elf.nobitsSections[i].addr == s.bssStart.value)
      && warnings == (if s.data.None? then [NoDataSection] else []) + (if s.bssStart.None? then [NoBssSection] else [])
    ensures stub.None? ==> warnings == []
  {
    warnings := [];
    var textSection := GetSection(elf.sections, ".text");
    if textSection.None? {
      return None, warnings;
    }
    var t := textSection.value;

    var data: Option<seq<byte>> := None;
    var dataStart: Option<nat> := None;
    var dataSection := GetSection(elf.sections, ".data");
    if dataSection.Some? {
      data := Some(dataSection.value.data);
      dataStart := Some(dataSection.value.addr);
    } else {
      warnings := warnings + [NoDataSection];
    }

    var bssStart := FindBss(elf.nobitsSections);
    if bssStart.None? {
      warnings := warnings + [NoBssSection];
    }

    var text := PadText(t.data);
    stub := Some(Stub(elf.entrypoint, text, t.addr, data, dataStart, bssStart));
  }
}
