/** The fixed seed directory of users and norms the application starts
    from. Every lookup of a modifying norm reads `MockNorms`, and every login
    reads `MockUsers`. */
module Data {
  import opened Types

  const MockUsers: seq<User> := [
    User("admin01", "admin", ADMIN),
    User("dir01", "directivo", DIRECTIVO)
  ]

  const RegAcadV1Content: string :=
    "\n# Reglamento Académico General\n## Versión 1\n\n### Artículo 10: De las Calificaciones\nLas calificaciones se expresarán en una escala de 0 a 100 puntos. La nota mínima para aprobar una asignatura es de 70 puntos.\n\n### Artículo 25: De la Asistencia\nSe requiere un mínimo del 80% de asistencia a clases para tener derecho a examen final.\n        "

  const RegAcadV2Content: string :=
    "\n# Reglamento Académico General\n## Versión 2\n\n### Artículo 10: De las Calificaciones\nLas calificaciones se expresarán en una escala de 0 a 100 puntos. La nota mínima para aprobar una asignatura es de 75 puntos.\n\n### Artículo 25: De la Asistencia\nSe requiere un mínimo del 80% de asistencia a clases para tener derecho a examen final.\n\n### Artículo 26: Modalidades de Graduación\nSe añade la modalidad de graduación por proyecto de grado.\n        "

  const ResCuContent: string :=
    "\n# Resolución del Consejo Universitario N° 050-2023\n\n### Artículo 1: Modificación del Artículo 10 del RAG\nModifíquese el artículo 10 del Reglamento Académico General, el cual quedará redactado de la siguiente manera:\n\"Las calificaciones se expresarán en una escala de 0 a 100 puntos. La nota mínima para aprobar una asignatura es de 75 puntos.\"\n\n### Artículo 2: Adición del Artículo 26 al RAG\nAñádase el artículo 26 al Reglamento Académico General con el siguiente texto:\n\"Se añade la modalidad de graduación por proyecto de grado.\"\n        "

  const ConfContent: string :=
    "\n# Protocolo de Inversiones Estratégicas\n## Versión 1\n\nEste documento es confidencial y solo para uso del personal directivo.\n\n### Sección 1: Aprobación de Proyectos\nTodo proyecto de inversión que supere el millón de dólares debe ser aprobado por el Comité Financiero y ratificado por Rectoría.\n        "

  const RegAcad: Norm := Norm(
    "reg-acad-001",
    "Reglamento Académico General",
    "RAG",
    "Norma que rige los procesos académicos de la universidad.",
    ["académico", "estudiantes", "evaluación"],
    false,
    [ Version(1, RegAcadV1Content, "2022-08-15T10:00:00Z", None),
      Version(2, RegAcadV2Content, "2023-05-20T14:30:00Z",
        Some(Modification(
          "res-cu-050-2023",
          "Resolución del Consejo Universitario N° 050-2023",
          "Se eleva la nota mínima de aprobación a 75 puntos y se añade una nueva modalidad de graduación.",
          "admin01",
          "2023-05-20T14:30:00Z")))
    ])

  const ResCu: Norm := Norm(
    "res-cu-050-2023",
    "Resolución del Consejo Universitario N° 050-2023",
    "RCU-050",
    "Resolución que modifica el Reglamento Académico General.",
    ["resolución", "modificación", "consejo universitario"],
    false,
    [ Version(1, ResCuContent, "2023-05-19T09:00:00Z", None) ])

  const NormConf: Norm := Norm(
    "norm-conf-001",
    "Protocolo de Inversiones Estratégicas",
    "PIE",
    "Documento que detalla las políticas y procedimientos para inversiones mayores a $1M.",
    ["financiero", "inversiones", "confidencial"],
    true,
    [ Version(1, ConfContent, "2024-01-10T11:00:00Z", None) ])

  const MockNorms: seq<Norm> := [RegAcad, ResCu, NormConf]
}
