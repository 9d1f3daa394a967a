/**
 * The registration flow of app.py: the process-wide `system_state`,
 * `face_detected`, `current_user_data` and `last_registered_user` as the
 * route handlers change them, and the attendance store of
 * `AttendanceManager` kept as an in-memory list of records.
 */
module Registration {
  import opened Wrappers

  /** The values of `SystemState`. */
  datatype SystemState = Waiting | DetectingFace | FaceDetected | Registering | Completed

  /** The JSON object posted to /api/register: field name to text. */
  type UserData = map<string, string>

  /** A clock reading in the three forms a record stores: `%Y-%m-%d`, `%H:%M:%S` and `isoformat()`. */
  datatype Stamp = Stamp(date: string, clock: string, iso: string)

  /** One row of the attendance store, one field per CSV column. */
  datatype Record = Record(
    fecha: string, horaIngreso: string, nombre: string, apellido: string,
    edad: string, sexo: string, correo: string, celular: string, timestamp: string)

  /** `user_data.get(key)` is truthy: the key is present with a non-empty value. */
  predicate Supplied(data: UserData, key: string) {
    key in data && data[key] != ""
  }

  /** `required_fields`, in the order they are checked. */
  const RequiredFields: seq<string> := ["nombre", "apellido"]

  /** The first field of the list, in order, that the data does not supply. */
  function FirstMissing(fields: seq<string>, data: UserData): (r: Option<string>)
    ensures r.None? <==> forall i :: 0 <= i < |fields| ==> Supplied(data, fields[i])
    ensures r.Some? ==>
      exists i :: && 0 <= i < |fields| && fields[i] == r.value && !Supplied(data, r.value)
                  && forall k :: 0 <= k < i ==> Supplied(data, fields[k])
  {
    if fields == [] then None
    else if !Supplied(data, fields[0]) then Some(fields[0])
    else FirstMissing(fields[1..], data)
  }

  /** The record `register_attendance` builds from the posted data and the clock. */
  function MakeRecord(data: UserData, now: Stamp): Record {
    Record(now.date, now.clock, MapGet(data, "nombre", ""), MapGet(data, "apellido", ""),
           MapGet(data, "edad", ""), MapGet(data, "sexo", ""), MapGet(data, "correo", ""),
           MapGet(data, "celular", ""), now.iso)
  }

  /** The validation message for a missing field. */
  function MissingMessage(field: string): string {
    "Falta el campo: " + field
  }

  /** nombre is checked first: without it the rejection names nombre whatever else is missing. */
  lemma NombreCheckedFirst(data: UserData)
    ensures !Supplied(data, "nombre") ==> FirstMissing(RequiredFields, data) == Some("nombre")
    ensures Supplied(data, "nombre") && !Supplied(data, "apellido") ==>
      FirstMissing(RequiredFields, data) == Some("apellido")
    ensures Supplied(data, "nombre") && Supplied(data, "apellido") ==> FirstMissing(RequiredFields, data) == None
  {
    assert RequiredFields[1..] == ["apellido"];
  }

  /** A record built from data that passed validation carries a non-empty nombre and apellido, as posted. */
  lemma ValidatedRecordNamed(data: UserData, now: Stamp)
    requires FirstMissing(RequiredFields, data) == None
    ensures Supplied(data, "nombre") && Supplied(data, "apellido")
    ensures MakeRecord(data, now).nombre == data["nombre"] != ""
    ensures MakeRecord(data, now).apellido == data["apellido"] != ""
  {
    assert Supplied(data, RequiredFields[0]) && Supplied(data, RequiredFields[1]);
  }

  /** The answer of /api/register. */
  datatype RegisterReply = Registered(record: Record) | Rejected(error: string)

  /** `AttendanceManager`, its CSV file kept as the list of records it holds. */
  class AttendanceManager {
    var records: seq<Record>

    /** Opening the store over the records already in the file. */
    constructor (existing: seq<Record>)
      ensures records == existing
    {
      records := existing;
    }

    /** `register_attendance`: build the record and append it. */
    method RegisterAttendance(data: UserData, now: Stamp) returns (record: Record)
      modifies this
      ensures record == MakeRecord(data, now)
      ensures records == old(records) + [record]
    {
      record := MakeRecord(data, now);
      records := records + [record];
    }

    /** `get_all_records` */
    method GetAllRecords() returns (all: seq<Record>)
      ensures all == records
    {
      all := records;
    }

    /** `has_records` */
    method HasRecords() returns (b: bool)
      ensures b <==> records != []
    {
      var all := GetAllRecords();
      b := |all| > 0;
    }
  }

  /** The module-level state of app.py and the route handlers that change it. */
  class Kiosk {
    var state: SystemState
    var faceDetected: bool
    var currentUserData: UserData
    var lastRegisteredUser: Option<Record>
    const manager: AttendanceManager

    /**
     * The last registered user, once there is one, is the newest record of
     * the store and has a nombre and an apellido.
     */
    ghost predicate Valid()
      reads this, manager
    {
      lastRegisteredUser.Some? ==>
        && manager.records != []
        && manager.records[|manager.records| - 1] == lastRegisteredUser.value
        && lastRegisteredUser.value.nombre != ""
        && lastRegisteredUser.value.apellido != ""
    }

    /** Start-up: WAITING, no face, no data, over the records already stored. */
    constructor (existing: seq<Record>)
      ensures Valid() && fresh(manager)
      ensures state == Waiting && !faceDetected && currentUserData == map[] && lastRegisteredUser == None
      ensures manager.records == existing
    {
      state := Waiting;
      faceDetected := false;
      currentUserData := map[];
      lastRegisteredUser := None;
      manager := new AttendanceManager(existing);
    }

    /** `/registro`: back to WAITING. */
    method Registro()
      requires Valid()
      modifies this
      ensures Valid() && state == Waiting
      ensures faceDetected == old(faceDetected) && currentUserData == old(currentUserData)
      ensures lastRegisteredUser == old(lastRegisteredUser)
    {
      state := Waiting;
    }

    /** `/detectar_rostro`: start looking for a face. */
    method DetectarRostro()
      requires Valid()
      modifies this
      ensures Valid() && state == DetectingFace
      ensures faceDetected == old(faceDetected) && currentUserData == old(currentUserData)
      ensures lastRegisteredUser == old(lastRegisteredUser)
    {
      state := DetectingFace;
    }

    /** One pass of the frame loop: the detector's verdict counts only while detecting. */
    method ObserveFrame(faceFound: bool)
      requires Valid()
      modifies this
      ensures Valid() && state == old(state)
      ensures faceDetected == if old(state) == DetectingFace then faceFound else old(faceDetected)
      ensures currentUserData == old(currentUserData) && lastRegisteredUser == old(lastRegisteredUser)
    {
      if state == DetectingFace {
        faceDetected := faceFound;
      }
    }

    /** `/formulario`: show the form (FACE_DETECTED) only once a face was seen; otherwise redirect, state untouched. */
    method Formulario() returns (shown: bool)
      requires Valid()
      modifies this
      ensures Valid() && shown == faceDetected
      ensures state == if faceDetected then FaceDetected else old(state)
      ensures faceDetected == old(faceDetected) && currentUserData == old(currentUserData)
      ensures lastRegisteredUser == old(lastRegisteredUser)
    {
      if faceDetected {
        state := FaceDetected;
        shown := true;
      } else {
        shown := false;
      }
    }

    /** `/completado` */
    method Completado()
      requires Valid()
      modifies this
      ensures Valid() && state == Completed
      ensures faceDetected == old(faceDetected) && currentUserData == old(currentUserData)
      ensures lastRegisteredUser == old(lastRegisteredUser)
    {
      state := Completed;
    }

    /**
     * `/api/register`: remember the data, reject it when a required field
     * is missing (state and store untouched), otherwise pass through
     * REGISTERING, append one record and finish in COMPLETED. A failing
     * store write leaves the state at REGISTERING and appends nothing.
     */
    method ApiRegister(data: UserData, now: Stamp, storeError: Option<string>) returns (reply: RegisterReply)
      requires Valid()
      modifies this, manager
      ensures Valid()
      ensures currentUserData == data && faceDetected == old(faceDetected)
      ensures FirstMissing(RequiredFields, data).Some? ==>
        && reply == Rejected(MissingMessage(FirstMissing(RequiredFields, data).value))
        && state == old(state)
        && manager.records == old(manager.records)
        && lastRegisteredUser == old(lastRegisteredUser)
      ensures FirstMissing(RequiredFields, data).None? && storeError.Some? ==>
        && reply == Rejected(storeError.value)
        && state == Registering
        && manager.records == old(manager.records)
        && lastRegisteredUser == old(lastRegisteredUser)
      ensures FirstMissing(RequiredFields, data).None? && storeError.None? ==>
        && reply == Registered(MakeRecord(data, now))
        && manager.records == old(manager.records) + [MakeRecord(data, now)]
        && lastRegisteredUser == Some(MakeRecord(data, now))
        && state == Completed
    {
      currentUserData := data;
      for i := 0 to |RequiredFields|
        invariant FirstMissing(RequiredFields, data) == FirstMissing(RequiredFields[i..], data)
      {
        var field := RequiredFields[i];
        if !Supplied(data, field) {
          reply := Rejected(MissingMessage(field));
          return;
        }
        assert RequiredFields[i..][1..] == RequiredFields[i + 1..];
      }
      assert FirstMissing(RequiredFields, data) == None;
      ValidatedRecordNamed(data, now);
      state := Registering;
      if storeError.Some? {
        reply := Rejected(storeError.value);
        return;
      }
      var record := manager.RegisterAttendance(data, now);
      lastRegisteredUser := Some(record);
      state := Completed;
      reply := Registered(record);
    }

    /** `/reset_system`: WAITING, no face, no data; the store and the last user stay. */
    method ResetSystem()
      requires Valid()
      modifies this
      ensures Valid()
      ensures state == Waiting && !faceDetected && currentUserData == map[]
      ensures lastRegisteredUser == old(lastRegisteredUser)
    {
      state := Waiting;
      faceDetected := false;
      currentUserData := map[];
    }
  }
}
