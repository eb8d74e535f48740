/**
 * appointments/serializers.py: the two validators and the appointment title.
 *
 * A validator either hands back the data it was given, reports validation
 * errors (a field name, or "non_field_errors" for an error raised without
 * one, mapped to its message), or fails with a KeyError when it reads a key
 * the data lacks.
 */
module AppointmentsSerializers {
  import opened Common
  import opened AccountsModels

  datatype Validation<T> =
    | Accepted(data: T)
    | Rejected(errors: map<string, string>)
    | MissingKey(key: string)

  const EndBeforeStartMessage: string := "La hora de finalización debe ser mayor a la hora de inicio"
  const AddressRequiredMessage: string := "La dirección es requerida para una ubicación no virtual"

  /**
   * TimeFrameSerializer.validate over times of day in seconds: a frame that
   * ends before it starts is rejected; end_time is read before start_time.
   */
  function TimeFrameValidate(data: map<string, int>): (r: Validation<map<string, int>>)
    ensures "end_time" !in data ==> r == MissingKey("end_time")
    ensures "end_time" in data && "start_time" !in data ==> r == MissingKey("start_time")
    ensures "end_time" in data && "start_time" in data ==>
              (r.Rejected? <==> data["end_time"] < data["start_time"])
    ensures r.Rejected? ==> r.errors == map["non_field_errors" := EndBeforeStartMessage]
    ensures r.Accepted? ==> r.data == data && data["start_time"] <= data["end_time"]
  {
    if "end_time" !in data then MissingKey("end_time")
    else if "start_time" !in data then MissingKey("start_time")
    else if data["end_time"] < data["start_time"] then
      Rejected(map["non_field_errors" := EndBeforeStartMessage])
    else Accepted(data)
  }

  /** A frame of zero length passes: only a strictly earlier end is refused. */
  lemma EmptyFrameAccepted(t: int)
    ensures TimeFrameValidate(map["start_time" := t, "end_time" := t]).Accepted?
  {
  }

  /**
   * LocationSerializer.validate: a location sent without the is_virtual key
   * needs a non-empty address. The key's presence alone skips the check,
   * whatever its value.
   */
  function LocationValidate(data: map<string, Value>): (r: Validation<map<string, Value>>)
    ensures "is_virtual" in data ==> r == Accepted(data)
    ensures "is_virtual" !in data && "address" !in data ==> r == MissingKey("address")
    ensures "is_virtual" !in data && "address" in data ==>
              (r.Rejected? <==> !Truthy(data["address"]))
    ensures r.Rejected? ==> r.errors == map["address" := AddressRequiredMessage]
    ensures r.Accepted? ==> r.data == data
  {
    if "is_virtual" !in data && !("address" in data) then MissingKey("address")
    else if "is_virtual" !in data && !Truthy(data["address"]) then
      Rejected(map["address" := AddressRequiredMessage])
    else Accepted(data)
  }

  /** is_virtual sent as False still skips the address check. */
  lemma FalseIsVirtualSkipsAddress(data: map<string, Value>)
    requires "is_virtual" in data && data["is_virtual"] == Bool(false)
    requires "address" in data && data["address"] == Str("")
    ensures LocationValidate(data) == Accepted(data)
  {
  }

  /** AppointmentSerializer.get_title: the service name, " - ", then the customer's full name. */
  function GetTitle(serviceName: string, firstName: string, lastName: string): (r: string)
    ensures |r| == |serviceName| + 3 + |FullName(firstName, lastName)|
    ensures r[..|serviceName|] == serviceName
    ensures r[|serviceName|..|serviceName| + 3] == " - "
    ensures r[|serviceName| + 3..] == FullName(firstName, lastName)
  {
    serviceName + " - " + FullName(firstName, lastName)
  }

  /** Two titles for the same service name differ exactly when the customers' full names do. */
  lemma TitleDeterminesCustomer(serviceName: string, f1: string, l1: string, f2: string, l2: string)
    ensures GetTitle(serviceName, f1, l1) == GetTitle(serviceName, f2, l2)
            <==> FullName(f1, l1) == FullName(f2, l2)
  {
    var t1, t2 := GetTitle(serviceName, f1, l1), GetTitle(serviceName, f2, l2);
    if t1 == t2 {
      assert t1[|serviceName| + 3..] == t2[|serviceName| + 3..];
    }
  }
}
