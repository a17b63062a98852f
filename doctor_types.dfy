/**
 * The record and the two string enumerations of src/types/doctor.ts.
 */
module DoctorTypes {

  import opened Wrappers

  /** `ConsultationType = 'Video Consult' | 'In Clinic'`. */
  datatype ConsultationType = VideoConsult | InClinic {

    /** The string the enumeration value stands for at run time. */
    function Label(): (s: string)
      ensures s == "Video Consult" || s == "In Clinic"
      ensures s != ""
    {
      match this
      case VideoConsult => "Video Consult"
      case InClinic => "In Clinic"
    }
  }

  /** `SortType = 'fees' | 'experience'`. */
  datatype SortType = Fees | Experience {

    function Label(): (s: string)
      ensures s == "fees" || s == "experience"
      ensures s != ""
    {
      match this
      case Fees => "fees"
      case Experience => "experience"
    }
  }

  /**
   * A doctor record as fetched. `experience` and `fee` are JavaScript numbers,
   * modelled as mathematical integers; `image` is the one optional field.
   */
  datatype Doctor = Doctor(
    id: string,
    name: string,
    speciality: seq<string>,
    experience: int,
    fee: int,
    moc: seq<ConsultationType>,
    image: Option<string>)

  /** Distinct enumeration values have distinct labels, so a label names exactly one value. */
  lemma ConsultationLabelInjective(a: ConsultationType, b: ConsultationType)
    ensures a.Label() == b.Label() <==> a == b
  {
  }

  lemma SortLabelInjective(a: SortType, b: SortType)
    ensures a.Label() == b.Label() <==> a == b
  {
  }
}
