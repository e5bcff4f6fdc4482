/**
 * The patient records in the cache never go stale: no endpoint changes a
 * patient row, a record is cached only under its own patient's key, and no
 * other cache write lands on a patient key. `Coherent` states this, and
 * each cache write and table write below preserves it.
 */
module PatientCache {
  import opened Wrappers
  import opened Models
  import opened Caching
  import opened Http
  import opened PatientRoutes
  import MedicineRoutes

  /** Everything stored under a patient key is the JSON record of that patient's current row. */
  ghost predicate Coherent(entries: map<string, Entry>, patients: map<int, Patient>) {
    forall id :: PatientKey(id) in entries ==>
      id in patients && entries[PatientKey(id)] == Str(Json(PatientRecord(patients[id])), entries[PatientKey(id)].expiresAt)
  }

  /** A Redis database that starts empty is coherent with any table. */
  lemma EmptyCacheIsCoherent(patients: map<int, Patient>)
    ensures Coherent(map[], patients)
  {
  }

  /**
   * One that does not start empty need not be: a record left under
   * `patient:<id>` by an earlier database is answered for a different
   * patient with that id.
   */
  lemma LeftoverRecordIsStale(p: Patient, q: Patient, clock: int)
    requires p != q
    ensures var entries := map[PatientKey(p.id) := Str(Json(PatientRecord(p)), clock + CACHE_TTL)];
            && !Coherent(entries, map[p.id := q])
            && Lookup(entries, clock, PatientKey(p.id)) == Some(Json(PatientRecord(p)))
  {
    var entries := map[PatientKey(p.id) := Str(Json(PatientRecord(p)), clock + CACHE_TTL)];
    assert PatientKey(p.id) in entries;
  }

  /** Under the invariant, a cache hit answers exactly what reading the table would. */
  lemma CachedRecordIsCurrent(entries: map<string, Entry>, patients: map<int, Patient>, clock: int, id: int)
    requires Coherent(entries, patients) && Lookup(entries, clock, PatientKey(id)).Some?
    ensures id in patients
    ensures Truthy(Lookup(entries, clock, PatientKey(id)).value)
    ensures CachedPatient(Lookup(entries, clock, PatientKey(id)).value) == Success(200, patients[id])
  {
  }

  /** A write under a key that is no patient's key keeps the invariant. */
  lemma WriteElsewhere(entries: map<string, Entry>, patients: map<int, Patient>, key: string, e: Entry)
    requires Coherent(entries, patients)
    requires forall id :: PatientKey(id) != key
    ensures Coherent(entries[key := e], patients)
  {
  }

  /** `GET /patients/{id}` caches the row it read under that row's key. */
  lemma ReadKeepsCoherent(entries: map<string, Entry>, patients: map<int, Patient>, clock: int, id: int)
    requires Coherent(entries, patients) && id in patients
    ensures Coherent(AfterSet(entries, clock, PatientKey(id), Json(PatientRecord(patients[id])), CACHE_TTL), patients)
  {
    forall j ensures PatientKey(j) == PatientKey(id) <==> j == id {
      PatientKeyInjective(j, id);
    }
  }

  /** `POST /patients` adds a row under a new id and writes its marker. */
  lemma RegisterKeepsCoherent(entries: map<string, Entry>, patients: map<int, Patient>, clock: int, id: int, p: Patient)
    requires Coherent(entries, patients) && id !in patients
    ensures Coherent(AfterSet(entries, clock, INVALIDATE_KEY, Text("1"), 1), patients[id := p])
  {
    assert Coherent(entries, patients[id := p]);
    forall j ensures PatientKey(j) != INVALIDATE_KEY {
      MarkerIsNoPatientKey(j);
    }
    WriteElsewhere(entries, patients[id := p], INVALIDATE_KEY, Str(Text("1"), clock + 1));
  }

  /** Medicine keys start with "m", patient keys with "p". */
  lemma MedicineKeysAreNoPatientKeys(q: Option<string>, page: int, id: int)
    ensures PatientKey(id) != MedicineRoutes.SearchKey(q, page)
    ensures PatientKey(id) != MedicineRoutes.INVALIDATE_KEY
  {
    assert PatientKey(id)[0] == 'p';
    assert MedicineRoutes.SearchKey(q, page)[0] == 'm';
  }

  /** `GET /medicines` caching a search page keeps the invariant. */
  lemma SearchKeepsCoherent(entries: map<string, Entry>, patients: map<int, Patient>, clock: int, q: Option<string>, page: int, items: seq<Medicine>)
    requires Coherent(entries, patients)
    ensures Coherent(AfterSet(entries, clock, MedicineRoutes.SearchKey(q, page), Json(MedicineList(items)), CACHE_TTL), patients)
  {
    forall id ensures PatientKey(id) != MedicineRoutes.SearchKey(q, page) {
      MedicineKeysAreNoPatientKeys(q, page, id);
    }
    WriteElsewhere(entries, patients, MedicineRoutes.SearchKey(q, page), Str(Json(MedicineList(items)), clock + CACHE_TTL));
  }

  /** `POST /medicines` writing its marker keeps the invariant. */
  lemma MedicineMarkerKeepsCoherent(entries: map<string, Entry>, patients: map<int, Patient>, clock: int)
    requires Coherent(entries, patients)
    ensures Coherent(AfterSet(entries, clock, MedicineRoutes.INVALIDATE_KEY, Text("1"), 1), patients)
  {
    forall id ensures PatientKey(id) != MedicineRoutes.INVALIDATE_KEY {
      MedicineKeysAreNoPatientKeys(None, 1, id);
    }
    WriteElsewhere(entries, patients, MedicineRoutes.INVALIDATE_KEY, Str(Text("1"), clock + 1));
  }

  /** Recording a login session keeps the invariant: session keys start with "s". */
  lemma SessionKeepsCoherent(entries: map<string, Entry>, patients: map<int, Patient>, clock: int, token: string, fields: map<string, string>)
    requires Coherent(entries, patients)
    ensures Coherent(AfterSession(entries, clock, SessionKey(token), fields), patients)
  {
    var after := AfterSession(entries, clock, SessionKey(token), fields);
    if after != entries {
      forall id ensures PatientKey(id) != SessionKey(token) {
        assert PatientKey(id)[0] == 'p' && SessionKey(token)[0] == 's';
      }
      WriteElsewhere(entries, patients, SessionKey(token), after[SessionKey(token)]);
      assert after == entries[SessionKey(token) := after[SessionKey(token)]];
    }
  }
}
