/** The health-history timeline of a pet: appointments grouped into one section per
    calendar year, newest year first, as the pet-profile screen hands them to its
    section list. */
module PetProfile {
  import opened Types
  import opened Sorting

  /** `new Date(appointment.date).getFullYear()` */
  function YearOf(a: Appointment): int { a.date.fullYear }

  /** `new Date(appointment.date).getTime()` */
  function TimeOf(a: Appointment): int { a.date.time }

  /** One section of the timeline: a year and its appointments. */
  datatype ProcessPetData = ProcessPetData(title: int, data: seq<Appointment>)

  /** The calendar years that occur among the appointments. */
  function Years(appointments: seq<Appointment>): set<int>
  {
    set a | a in appointments :: YearOf(a)
  }

  /** The section titles. */
  function Titles(sections: seq<ProcessPetData>): set<int>
  {
    set s | s in sections :: s.title
  }

  /** Section titles are strictly descending, hence pairwise distinct. */
  predicate TitlesDescending(sections: seq<ProcessPetData>)
  {
    forall i, j :: 0 <= i < j < |sections| ==> sections[i].title > sections[j].title
  }

  /** The section holds exactly the appointments of its year, each as often as in the
      input, and none of any other year. */
  ghost predicate HoldsYear(section: ProcessPetData, appointments: seq<Appointment>)
  {
    forall a :: multiset(section.data)[a] ==
                (if YearOf(a) == section.title then multiset(appointments)[a] else 0)
  }

  /** Appointments of the section's year that share a timestamp appear in the section in
      the order the input lists them (the sort is stable, and `filter` keeps order). */
  ghost predicate TiesInInputOrder(section: ProcessPetData, appointments: seq<Appointment>)
  {
    forall t :: KeepKey(section.data, TimeOf, t)
                == KeepKey(KeepKey(appointments, YearOf, section.title), TimeOf, t)
  }

  /** All sections' appointments, in section order. */
  function Flatten(sections: seq<ProcessPetData>): seq<Appointment>
  {
    if sections == [] then [] else sections[0].data + Flatten(sections[1..])
  }

  /** What the conversion promises about its result. */
  ghost predicate IsConversionOf(processed: seq<ProcessPetData>, appointments: seq<Appointment>)
  {
    && TitlesDescending(processed)
    && Titles(processed) == Years(appointments)
    && multiset(Flatten(processed)) == multiset(appointments)
    // a single year: one section holding the input as it is, in its original order
    && (|Years(appointments)| == 1 ==> |processed| == 1 && processed[0].data == appointments)
    // otherwise: each section holds its year's appointments, newest first, equal
    // timestamps in input order
    && (|Years(appointments)| != 1 ==>
          forall k :: 0 <= k < |processed| ==>
            && HoldsYear(processed[k], appointments)
            && NonIncreasing(processed[k].data, TimeOf)
            && TiesInInputOrder(processed[k], appointments))
  }

  /** The loop that adds every appointment's year to `yearSet`. A JavaScript `Set`
      keeps insertion order, so it is a sequence without repetitions here. */
  method CollectYears(appointments: seq<Appointment>) returns (yearSet: seq<int>)
    ensures Distinct(yearSet)
    ensures (set y | y in yearSet) == Years(appointments)
  {
    yearSet := [];
    for i := 0 to |appointments|
      invariant Distinct(yearSet)
      invariant (set y | y in yearSet) == Years(appointments[..i])
    {
      var year := YearOf(appointments[i]);
      assert appointments[..i + 1] == appointments[..i] + [appointments[i]];
      assert Years(appointments[..i + 1]) == Years(appointments[..i]) + {year};
      if year !in yearSet {
        yearSet := yearSet + [year];
      }
    }
    assert appointments[..|appointments|] == appointments;
  }

  /** The section built for one year in the several-years case. */
  function YearSection(appointments: seq<Appointment>, year: int): (section: ProcessPetData)
    ensures section.title == year
    ensures HoldsYear(section, appointments)
    ensures NonIncreasing(section.data, TimeOf)
    ensures TiesInInputOrder(section, appointments)
  {
    // `appointments.filter(...)`, then `.sort((a, b) => b.getTime() - a.getTime())`
    var ofYear := KeepKey(appointments, YearOf, year);
    var sorted := SortDescending(ofYear, TimeOf);
    SortOrdered(ofYear, TimeOf);
    SortPermutes(ofYear, TimeOf);
    assert HoldsYear(ProcessPetData(year, sorted), appointments) by {
      forall a ensures multiset(sorted)[a] == (if YearOf(a) == year then multiset(appointments)[a] else 0) {
        KeepKeyCounts(appointments, YearOf, year, a);
      }
    }
    assert forall t :: KeepKey(sorted, TimeOf, t) == KeepKey(ofYear, TimeOf, t) by {
      forall t ensures KeepKey(sorted, TimeOf, t) == KeepKey(ofYear, TimeOf, t) {
        SortIsStable(ofYear, TimeOf, t);
      }
    }
    ProcessPetData(year, sorted)
  }

  /** `years.map(year => ...)` over the sorted years. */
  function Group(years: seq<int>, appointments: seq<Appointment>): (sections: seq<ProcessPetData>)
    ensures |sections| == |years|
    ensures forall k :: 0 <= k < |years| ==> sections[k].title == years[k]
    ensures forall k :: 0 <= k < |years| ==>
              && HoldsYear(sections[k], appointments)
              && NonIncreasing(sections[k].data, TimeOf)
              && TiesInInputOrder(sections[k], appointments)
  {
    if years == [] then []
    else [YearSection(appointments, years[0])] + Group(years[1..], appointments)
  }

  /** The sections are titled with exactly the given years. */
  lemma GroupTitles(years: seq<int>, appointments: seq<Appointment>)
    ensures Titles(Group(years, appointments)) == set y | y in years
  {
  }

  /** Sections with distinct titles, each holding its year's appointments, together hold
      every appointment whose year is a title, each as often as in the input. */
  lemma {:induction false} FlattenCounts(sections: seq<ProcessPetData>, appointments: seq<Appointment>, a: Appointment)
    requires TitlesDescending(sections)
    requires forall k :: 0 <= k < |sections| ==> HoldsYear(sections[k], appointments)
    ensures multiset(Flatten(sections))[a] ==
            (if YearOf(a) in Titles(sections) then multiset(appointments)[a] else 0)
  {
    if sections != [] {
      var rest := sections[1..];
      FlattenCounts(rest, appointments, a);
      assert Titles(sections) == {sections[0].title} + Titles(rest);
      assert sections[0].title !in Titles(rest) by {
        forall s | s in rest ensures s.title != sections[0].title {
          var k :| 0 <= k < |rest| && rest[k] == s;
          assert sections[k + 1] == s;
        }
      }
      assert HoldsYear(sections[0], appointments);
    }
  }

  /** Sections that cover every year of the input, once each, are a permutation of it. */
  lemma SectionsArePermutation(sections: seq<ProcessPetData>, appointments: seq<Appointment>)
    requires TitlesDescending(sections)
    requires Titles(sections) == Years(appointments)
    requires forall k :: 0 <= k < |sections| ==> HoldsYear(sections[k], appointments)
    ensures multiset(Flatten(sections)) == multiset(appointments)
  {
    forall a ensures multiset(Flatten(sections))[a] == multiset(appointments)[a] {
      FlattenCounts(sections, appointments, a);
      if a in appointments {
        assert YearOf(a) in Years(appointments);
      }
    }
  }

  /** Years are sorted by their own value. */
  function YearKey(y: int): int { y }

  /** `Array.from(yearSet).sort((a, b) => b - a)`: the distinct years, newest first. */
  function SortYears(yearSet: seq<int>): (years: seq<int>)
    requires Distinct(yearSet)
    ensures forall i, j :: 0 <= i < j < |years| ==> years[i] > years[j]
    ensures (set y | y in years) == (set y | y in yearSet)
    ensures |years| == |set y | y in yearSet|
  {
    var sorted := SortDescending(yearSet, YearKey);
    SortOrdered(yearSet, YearKey);
    SortPermutes(yearSet, YearKey);
    OrderedYears(yearSet, sorted);
    sorted
  }

  /** A descending rearrangement of distinct years is strictly descending and holds the
      same years, one entry each. */
  lemma OrderedYears(yearSet: seq<int>, sorted: seq<int>)
    requires Distinct(yearSet)
    requires NonIncreasing(sorted, YearKey) && multiset(sorted) == multiset(yearSet)
    ensures forall i, j :: 0 <= i < j < |sorted| ==> sorted[i] > sorted[j]
    ensures (set y | y in sorted) == (set y | y in yearSet)
    ensures |sorted| == |set y | y in yearSet|
  {
    DistinctPermutation(yearSet, sorted);
    forall i, j | 0 <= i < j < |sorted|
      ensures sorted[i] > sorted[j]
    {
      assert YearKey(sorted[i]) >= YearKey(sorted[j]);
    }
    assert (set y | y in sorted) == (set y | y in yearSet) by {
      forall y ensures y in sorted <==> y in yearSet {
        assert y in sorted <==> y in multiset(sorted);
      }
    }
    DistinctCardinality(sorted);
  }

  /** The one-year branch meets the conversion's promise. */
  lemma SingleYearIsConversion(years: seq<int>, appointments: seq<Appointment>)
    requires |years| == 1 && (set y | y in years) == Years(appointments)
    ensures IsConversionOf([ProcessPetData(years[0], appointments)], appointments)
  {
    var processed := [ProcessPetData(years[0], appointments)];
    assert (set y | y in years) == {years[0]};
    assert Titles(processed) == {years[0]};
    assert Flatten(processed) == appointments;
  }

  /** The several-years branch (zero years included) meets the conversion's promise. */
  lemma GroupIsConversion(years: seq<int>, appointments: seq<Appointment>)
    requires forall i, j :: 0 <= i < j < |years| ==> years[i] > years[j]
    requires (set y | y in years) == Years(appointments)
    requires |years| == |Years(appointments)| != 1
    ensures IsConversionOf(Group(years, appointments), appointments)
  {
    var processed := Group(years, appointments);
    GroupTitles(years, appointments);
    assert TitlesDescending(processed);
    SectionsArePermutation(processed, appointments);
  }

  /** `convertData`: collects the years, sorts them newest first, and either keeps the
      whole list as one section or builds one sorted section per year. */
  method ConvertData(appointments: seq<Appointment>) returns (processed: seq<ProcessPetData>)
    ensures IsConversionOf(processed, appointments)
    ensures appointments == [] ==> processed == []
  {
    var yearSet := CollectYears(appointments);
    yearSet := SortYears(yearSet);
    if |yearSet| == 1 {
      processed := [ProcessPetData(yearSet[0], appointments)];
      SingleYearIsConversion(yearSet, appointments);
    } else {
      processed := Group(yearSet, appointments);
      GroupIsConversion(yearSet, appointments);
    }
  }

  /** The pet-profile screen's state: the pet's appointments as last fetched (absent
      until the request succeeds) and the timeline sections shown. */
  class PetProfileView {
    var appointments: Option<seq<Appointment>>
    var processedData: seq<ProcessPetData>

    /** The screen mounts with an empty pet and no sections. */
    constructor ()
      ensures appointments == None && processedData == []
    {
      appointments := None;
      processedData := [];
    }

    /** `setPet(validPetData)` once the health-history request answers. */
    method ReceivePet(fetched: Option<seq<Appointment>>)
      modifies this`appointments
      ensures appointments == fetched
    {
      appointments := fetched;
    }

    /** The focus effect: converts only when the pet has an appointment list; otherwise
        the previous sections stay. The appointment list itself is never changed. */
    method FocusEffect()
      modifies this`processedData
      ensures appointments == old(appointments)
      ensures appointments.None? ==> processedData == old(processedData)
      ensures appointments.Some? ==> IsConversionOf(processedData, appointments.value)
    {
      if appointments.Some? {
        processedData := ConvertData(appointments.value);
      }
    }
  }
}
